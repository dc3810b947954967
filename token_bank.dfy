/**
 * The shared token supply: distributing penalty points as tokens, returning a token,
 * and exchanging one black token for ten white ones (src/game/TokenBank.js).
 */
module Tokens {
  import opened Constants
  import opened Players

  /** Token counts handed to a player, as the source's `{ black, white }` result. */
  datatype Given = Given(black: int, white: int)

  /** Everything one bank operation touches: the bank's two supplies and one player's two holdings. */
  datatype Ledger = Ledger(bankWhite: int, bankBlack: int, white: int, black: int)

  /** No count is negative. */
  predicate Sound(l: Ledger)
  {
    l.bankWhite >= 0 && l.bankBlack >= 0 && l.white >= 0 && l.black >= 0
  }

  /** The player's points in tokens, as Player.TotalPoints computes them. */
  function Points(l: Ledger): int
  {
    TokenPoints(l.white, l.black)
  }

  /** For each token type, supply plus holding is the same before and after. */
  predicate Conserves(before: Ledger, after: Ledger)
  {
    && before.bankWhite + before.white == after.bankWhite + after.white
    && before.bankBlack + before.black == after.bankBlack + after.black
  }

  function Min(a: int, b: int): int
  {
    if a <= b then a else b
  }

  /**
   * The greedy split of `points`: as many black tokens as the points and the black
   * supply allow, then the rest of the points in white, as far as the white supply allows.
   * The contract characterises the split without Min: each count is bounded, and it
   * stops short only where its supply runs out.
   */
  function Allocate(points: nat, whiteSupply: int, blackSupply: int): (g: Given)
    requires whiteSupply >= 0 && blackSupply >= 0
    ensures 0 <= g.black <= blackSupply && BLACK_TOKEN_VALUE * g.black <= points
    ensures g.black == blackSupply || points - BLACK_TOKEN_VALUE * g.black < BLACK_TOKEN_VALUE
    ensures 0 <= g.white <= whiteSupply && BLACK_TOKEN_VALUE * g.black + g.white <= points
    ensures g.white == whiteSupply || BLACK_TOKEN_VALUE * g.black + g.white == points
  {
    var black := Min(points / BLACK_TOKEN_VALUE, blackSupply);
    var white := Min(points - black * BLACK_TOKEN_VALUE, whiteSupply);
    Given(black, white)
  }

  /** The characterisation in Allocate's contract admits exactly one split. */
  lemma AllocateUnique(points: nat, whiteSupply: int, blackSupply: int, g: Given)
    requires whiteSupply >= 0 && blackSupply >= 0
    requires 0 <= g.black <= blackSupply && BLACK_TOKEN_VALUE * g.black <= points
    requires g.black == blackSupply || points - BLACK_TOKEN_VALUE * g.black < BLACK_TOKEN_VALUE
    requires 0 <= g.white <= whiteSupply && BLACK_TOKEN_VALUE * g.black + g.white <= points
    requires g.white == whiteSupply || BLACK_TOKEN_VALUE * g.black + g.white == points
    ensures g == Allocate(points, whiteSupply, blackSupply)
  {
    var a := Allocate(points, whiteSupply, blackSupply);
    assert g.black == a.black;
  }

  /**
   * A short black supply does not lose points: the missing tens are paid in white,
   * so the player receives exactly `points` whenever the white supply covers the rest.
   */
  lemma AllocateShortfallInWhite(points: nat, whiteSupply: int, blackSupply: int)
    requires whiteSupply >= 0 && blackSupply >= 0
    ensures var g := Allocate(points, whiteSupply, blackSupply);
      BLACK_TOKEN_VALUE * g.black + g.white == points <==> points - BLACK_TOKEN_VALUE * g.black <= whiteSupply
    ensures blackSupply < points / BLACK_TOKEN_VALUE ==>
      Allocate(points, whiteSupply, blackSupply).white == Min(points - BLACK_TOKEN_VALUE * blackSupply, whiteSupply)
  {
  }

  /** 23 points with full supplies give 2 black and 3 white; with one black left, 1 black and 13 white; 0 gives nothing. */
  lemma AllocateExamples()
    ensures Allocate(23, WHITE_TOKEN_COUNT, BLACK_TOKEN_COUNT) == Given(2, 3)
    ensures Allocate(23, WHITE_TOKEN_COUNT, 1) == Given(1, 13)
    ensures Allocate(0, WHITE_TOKEN_COUNT, BLACK_TOKEN_COUNT) == Given(0, 0)
    ensures Allocate(40, 5, 0) == Given(0, 5)
  {
  }

  /** distributeTokens: the split moves from the supplies to the player. */
  function Distributed(l: Ledger, points: nat): (r: Ledger)
    requires l.bankWhite >= 0 && l.bankBlack >= 0
    ensures Conserves(l, r) && (Sound(l) ==> Sound(r))
    ensures Points(l) <= Points(r) <= Points(l) + points
    ensures l.bankWhite >= points ==> Points(r) == Points(l) + points
  {
    var g := Allocate(points, l.bankWhite, l.bankBlack);
    Ledger(l.bankWhite - g.white, l.bankBlack - g.black, l.white + g.white, l.black + g.black)
  }

  /** returnToken: one token of type `t` goes back, if the player holds one. */
  function Returned(l: Ledger, t: TokenType): (r: (Ledger, bool))
    ensures Conserves(l, r.0) && (Sound(l) ==> Sound(r.0))
    ensures r.1 <==> (if t == Black then l.black > 0 else l.white > 0)
    ensures !r.1 ==> r.0 == l
    ensures r.1 ==> Points(r.0) == Points(l) - (if t == Black then BLACK_TOKEN_VALUE else WHITE_TOKEN_VALUE)
  {
    match t
    case Black =>
      if l.black > 0 then (l.(black := l.black - 1, bankBlack := l.bankBlack + 1), true) else (l, false)
    case White =>
      if l.white > 0 then (l.(white := l.white - 1, bankWhite := l.bankWhite + 1), true) else (l, false)
  }

  /** One black token becomes ten white ones, if the player has a black one and the bank ten white. */
  function BlackToWhite(l: Ledger): (r: (Ledger, bool))
    ensures Conserves(l, r.0) && (Sound(l) ==> Sound(r.0)) && Points(r.0) == Points(l)
    ensures r.1 <==> l.black >= 1 && l.bankWhite >= BLACK_TOKEN_VALUE
    ensures !r.1 ==> r.0 == l
  {
    if l.black < 1 || l.bankWhite < BLACK_TOKEN_VALUE then (l, false)
    else (Ledger(l.bankWhite - BLACK_TOKEN_VALUE, l.bankBlack + 1, l.white + BLACK_TOKEN_VALUE, l.black - 1), true)
  }

  /** The bank's `_canExchangeWhiteToBlack` test. */
  predicate CanWhiteToBlack(l: Ledger)
  {
    l.white >= BLACK_TOKEN_VALUE && l.bankBlack >= 1
  }

  /** Ten white tokens become one black one, if the player has ten white and the bank a black one. */
  function WhiteToBlack(l: Ledger): (r: (Ledger, bool))
    ensures Conserves(l, r.0) && (Sound(l) ==> Sound(r.0)) && Points(r.0) == Points(l)
    ensures r.1 <==> l.white >= BLACK_TOKEN_VALUE && l.bankBlack >= 1
    ensures !r.1 ==> r.0 == l
  {
    if l.white < BLACK_TOKEN_VALUE || l.bankBlack < 1 then (l, false)
    else (Ledger(l.bankWhite + BLACK_TOKEN_VALUE, l.bankBlack - 1, l.white - BLACK_TOKEN_VALUE, l.black + 1), true)
  }

  /** exchange: converts from the given token type. */
  function Exchanged(l: Ledger, from: TokenType): (r: (Ledger, bool))
    ensures Conserves(l, r.0) && (Sound(l) ==> Sound(r.0)) && Points(r.0) == Points(l)
    ensures !r.1 ==> r.0 == l
    ensures r.1 ==> if from == Black then r.0.black == l.black - 1 else r.0.black == l.black + 1
  {
    if from == Black then BlackToWhite(l) else WhiteToBlack(l)
  }

  /** A black-to-white exchange followed by a white-to-black one restores every count. */
  lemma ExchangeRoundTrip(l: Ledger)
    requires Sound(l) && Exchanged(l, Black).1
    ensures Exchanged(Exchanged(l, Black).0, White) == (l, true)
  {
    var m := BlackToWhite(l).0;
    assert m == Ledger(l.bankWhite - 10, l.bankBlack + 1, l.white + 10, l.black - 1);
    assert WhiteToBlack(m).0 == l;
  }

  /**
   * returnBestToken: a black token if the player has one; else, if an exchange of ten
   * white for one black is possible, exchange and return that black; else one white;
   * else nothing.
   */
  function BestReturned(l: Ledger): (r: (Ledger, Option<TokenType>))
    ensures Conserves(l, r.0) && (Sound(l) ==> Sound(r.0))
    ensures r.1 == Some(Black) <==> l.black > 0 || CanWhiteToBlack(l)
    ensures r.1 == Some(White) <==> l.black <= 0 && !CanWhiteToBlack(l) && l.white > 0
    ensures r.1 == None <==> r.0 == l
    ensures Sound(l) && r.1 == Some(Black) ==> Points(r.0) == Points(l) - BLACK_TOKEN_VALUE
    ensures r.1 == Some(White) ==> Points(r.0) == Points(l) - WHITE_TOKEN_VALUE
  {
    if l.black > 0 then (Returned(l, Black).0, Some(Black))
    else if CanWhiteToBlack(l) then
      var exchanged := WhiteToBlack(l).0;
      (Returned(exchanged, Black).0, Some(Black))
    else if l.white > 0 then (Returned(l, White).0, Some(White))
    else (l, None)
  }

  /** A player with 12 white and no black tokens who empties the hand ends on 2 points, having handed back a black token. */
  lemma BestReturnedExample(bankWhite: int, bankBlack: int)
    requires bankBlack >= 1
    ensures BestReturned(Ledger(bankWhite, bankBlack, 12, 0)) ==
      (Ledger(bankWhite + 10, bankBlack, 2, 0), Some(Black))
    ensures Points(BestReturned(Ledger(bankWhite, bankBlack, 12, 0)).0) == 2
  {
  }

  class TokenBank {
    var white: int
    var black: int

    ghost predicate Valid()
      reads this
    {
      white >= 0 && black >= 0
    }

    /** A full bank: 50 white and 20 black tokens. */
    constructor ()
      ensures Valid() && white == WHITE_TOKEN_COUNT && black == BLACK_TOKEN_COUNT
    {
      white := WHITE_TOKEN_COUNT;
      black := BLACK_TOKEN_COUNT;
    }

    /** The bank's supplies together with player `p`'s holding. */
    function Snapshot(p: Player): Ledger
      reads this, p
    {
      Ledger(white, black, p.whiteTokens, p.blackTokens)
    }

    /** Gives `p` tokens worth `points` as far as the supplies allow, and returns what was given. */
    method DistributeTokens(p: Player, points: nat) returns (g: Given)
      requires Valid()
      modifies this, p`whiteTokens, p`blackTokens
      ensures Valid()
      ensures g == Allocate(points, old(white), old(black))
      ensures Snapshot(p) == Distributed(old(Snapshot(p)), points)
    {
      var blackNeeded := points / BLACK_TOKEN_VALUE;
      var blackToGive := Min(blackNeeded, black);
      var remaining := points - blackToGive * BLACK_TOKEN_VALUE;
      var whiteToGive := Min(remaining, white);
      black := black - blackToGive;
      white := white - whiteToGive;
      p.AddBlackTokens(blackToGive);
      p.AddWhiteTokens(whiteToGive);
      g := Given(blackToGive, whiteToGive);
    }

    /** `p` hands back one token of type `t`; false, with nothing changed, if `p` holds none. */
    method ReturnToken(p: Player, t: TokenType) returns (ok: bool)
      requires Valid()
      modifies this, p`whiteTokens, p`blackTokens
      ensures Valid()
      ensures (Snapshot(p), ok) == Returned(old(Snapshot(p)), t)
    {
      if t == Black && p.blackTokens > 0 {
        p.AddBlackTokens(-1);
        black := black + 1;
        return true;
      }
      if t == White && p.whiteTokens > 0 {
        p.AddWhiteTokens(-1);
        white := white + 1;
        return true;
      }
      return false;
    }

    /** The emptied-hand bonus: `p` hands back the most valuable token it can, exchanging first if that helps. */
    method ReturnBestToken(p: Player) returns (returned: Option<TokenType>)
      requires Valid()
      modifies this, p`whiteTokens, p`blackTokens
      ensures Valid()
      ensures (Snapshot(p), returned) == BestReturned(old(Snapshot(p)))
    {
      if p.blackTokens > 0 {
        var _ := ReturnToken(p, Black);
        return Some(Black);
      }
      if CanExchangeWhiteToBlack(p) {
        var _ := ExchangeWhiteToBlack(p);
        var _ := ReturnToken(p, Black);
        return Some(Black);
      }
      if p.whiteTokens > 0 {
        var _ := ReturnToken(p, White);
        return Some(White);
      }
      return None;
    }

    predicate CanExchangeWhiteToBlack(p: Player)
      reads this, p
    {
      CanWhiteToBlack(Snapshot(p))
    }

    /** Exchanges from the given token type; false, with nothing changed, when the exchange is not possible. */
    method Exchange(p: Player, from: TokenType) returns (ok: bool)
      requires Valid()
      modifies this, p`whiteTokens, p`blackTokens
      ensures Valid()
      ensures (Snapshot(p), ok) == Exchanged(old(Snapshot(p)), from)
    {
      if from == Black {
        ok := ExchangeBlackToWhite(p);
      } else {
        ok := ExchangeWhiteToBlack(p);
      }
    }

    method ExchangeBlackToWhite(p: Player) returns (ok: bool)
      requires Valid()
      modifies this, p`whiteTokens, p`blackTokens
      ensures Valid()
      ensures (Snapshot(p), ok) == BlackToWhite(old(Snapshot(p)))
    {
      var whiteNeeded := BLACK_TOKEN_VALUE;
      if p.blackTokens < 1 || white < whiteNeeded {
        return false;
      }
      p.AddBlackTokens(-1);
      black := black + 1;
      p.AddWhiteTokens(whiteNeeded);
      white := white - whiteNeeded;
      return true;
    }

    method ExchangeWhiteToBlack(p: Player) returns (ok: bool)
      requires Valid()
      modifies this, p`whiteTokens, p`blackTokens
      ensures Valid()
      ensures (Snapshot(p), ok) == WhiteToBlack(old(Snapshot(p)))
    {
      var whiteNeeded: int := BLACK_TOKEN_VALUE;
      if p.whiteTokens < whiteNeeded || black < 1 {
        return false;
      }
      p.AddWhiteTokens(-whiteNeeded);
      white := white + whiteNeeded;
      p.AddBlackTokens(1);
      black := black - 1;
      return true;
    }
  }
}

/** Rule tables and enumerations of the L.A.M.A. rules engine (src/constants.js). */
module Constants {

  /** The seven card values; the JavaScript enum uses 1..6 and the string 'Llama'. */
  datatype CardValue = One | Two | Three | Four | Five | Six | Llama

  /** A raw JavaScript value handed to the Card constructor: a number or a string. */
  datatype RawValue = Number(n: int) | Text(s: string)

  datatype TurnAction = PlayCard | DrawCard | Quit
  datatype PlayerStatus = Active | Quit
  datatype TokenType = White | Black
  datatype RoundEndReason = HandEmpty | AllQuit
  datatype GameMode = Local | Ai

  /** The engine's error taxonomy; each JavaScript `throw` becomes one of these. */
  datatype Failure =
    | NotPlayersTurn     // action by someone other than the current player
    | PlayerNotActive    // action by a player who has quit
    | IllegalPlay        // card cannot be played on the top card
    | IllegalDraw        // deck empty or last active player
    | NotEnoughCards     // deal asked for more cards than remain
    | CardNotInHand      // removeCard given a card the hand does not hold
    | InvalidCardValue   // a card built from a value outside the seven card values

  datatype Option<T> = None | Some(value: T)

  /** The outcome of an operation that may throw: its value, or the failure it raises. */
  datatype Result<T> = Ok(value: T) | Err(failure: Failure)

  const COPIES_PER_VALUE: nat := 8
  const TOTAL_CARDS: nat := 56
  const PLAYER_COUNT: nat := 4
  const HAND_SIZE_INITIAL: nat := 6
  const WHITE_TOKEN_VALUE: nat := 1
  const BLACK_TOKEN_VALUE: nat := 10

  /** The points that `white` white and `black` black tokens are worth; the one definition every points total uses. */
  function TokenPoints(white: int, black: int): int
  {
    white * WHITE_TOKEN_VALUE + black * BLACK_TOKEN_VALUE
  }
  const WHITE_TOKEN_COUNT: nat := 50
  const BLACK_TOKEN_COUNT: nat := 20
  const GAME_OVER_THRESHOLD: nat := 40
  const LLAMA_PENALTY: nat := 10

  /** Ordered list of all card values, in the order the deck is built. */
  const ALL_CARD_VALUES: seq<CardValue> := [One, Two, Three, Four, Five, Six, Llama]

  /** The JavaScript representation of each card value. */
  function Raw(v: CardValue): RawValue
  {
    match v
    case One => Number(1)
    case Two => Number(2)
    case Three => Number(3)
    case Four => Number(4)
    case Five => Number(5)
    case Six => Number(6)
    case Llama => Text("Llama")
  }

  /** Position of a value in ALL_CARD_VALUES (0 for One, 6 for Llama). */
  function Position(v: CardValue): (k: nat)
    ensures k < |ALL_CARD_VALUES| && ALL_CARD_VALUES[k] == v
  {
    match v
    case One => 0
    case Two => 1
    case Three => 2
    case Four => 3
    case Five => 4
    case Six => 5
    case Llama => 6
  }

  /** The NEXT_VALUE table: the value that may follow `v` in the cycle 1→2→…→6→Llama→1. */
  function NextValue(v: CardValue): CardValue
  {
    match v
    case One => Two
    case Two => Three
    case Three => Four
    case Four => Five
    case Five => Six
    case Six => Llama
    case Llama => One
  }

  /** The PENALTY_VALUES table: face value for 1..6, LLAMA_PENALTY for the Llama. */
  function PenaltyValue(v: CardValue): nat
  {
    match v
    case One => 1
    case Two => 2
    case Three => 3
    case Four => 4
    case Five => 5
    case Six => 6
    case Llama => 10
  }

  /** `NextValue` applied `k` times. */
  function NextIter(v: CardValue, k: nat): CardValue
    decreases k
  {
    if k == 0 then v else NextIter(NextValue(v), k - 1)
  }

  /** Applying NEXT_VALUE `k` times moves `k` places along ALL_CARD_VALUES, wrapping. */
  lemma {:induction false} NextIterPosition(v: CardValue, k: nat)
    ensures Position(NextIter(v, k)) == (Position(v) + k) % 7
    decreases k
  {
    if k > 0 {
      NextIterPosition(NextValue(v), k - 1);
    }
  }

  /** NEXT_VALUE is one step along ALL_CARD_VALUES, wrapping from Llama to 1. */
  lemma NextValueIsSuccessor(v: CardValue)
    ensures Position(NextValue(v)) == (Position(v) + 1) % 7
    ensures NextValue(v) == ALL_CARD_VALUES[(Position(v) + 1) % 7]
  {
  }

  /** The cycle has length exactly seven: seven steps return to the start, fewer never do. */
  lemma NextValueCycle(v: CardValue, k: nat)
    requires 0 < k <= 7
    ensures NextIter(v, k) == v <==> k == 7
  {
    NextIterPosition(v, k);
    PositionInjective(NextIter(v, k), v);
  }

  /** NEXT_VALUE has no fixed point and is a bijection of the seven values. */
  lemma NextValueBijection(a: CardValue, b: CardValue)
    ensures NextValue(a) != a
    ensures NextValue(a) == NextValue(b) ==> a == b
    ensures exists c :: NextValue(c) == a
  {
    assert NextValue(NextIter(a, 6)) == a by {
      NextIterPosition(a, 6);
      NextIterPosition(a, 7);
      PositionInjective(NextIter(a, 7), a);
    }
  }

  lemma PositionInjective(a: CardValue, b: CardValue)
    ensures Position(a) == Position(b) <==> a == b
  {
  }

  /** PENALTY_VALUES is the face value for 1..6 and LLAMA_PENALTY for the Llama. */
  lemma PenaltyValueTable(v: CardValue)
    ensures v != Llama ==> PenaltyValue(v) == Position(v) + 1
    ensures v == Llama ==> PenaltyValue(v) == LLAMA_PENALTY
    ensures PenaltyValue(v) in {1, 2, 3, 4, 5, 6, 10}
  {
  }

  /** The rule counts fit together: eight copies of seven values make the deck, and a deal leaves cards over. */
  lemma RuleCounts()
    ensures COPIES_PER_VALUE * |ALL_CARD_VALUES| == TOTAL_CARDS
    ensures PLAYER_COUNT * HAND_SIZE_INITIAL + 1 == 25 <= TOTAL_CARDS
  {
  }

  /** ALL_CARD_VALUES lists each of the seven values exactly once. */
  lemma AllValuesListed()
    ensures |ALL_CARD_VALUES| == 7
    ensures forall i, j :: 0 <= i < j < |ALL_CARD_VALUES| ==> ALL_CARD_VALUES[i] != ALL_CARD_VALUES[j]
    ensures forall v: CardValue :: v in ALL_CARD_VALUES
  {
    forall v: CardValue ensures v in ALL_CARD_VALUES {
      assert ALL_CARD_VALUES[Position(v)] == v;
    }
  }

  /** The Card constructor's validation: a raw value is accepted when it is one of the seven enum values. */
  function ParseCardValue(raw: RawValue): (r: Option<CardValue>)
    ensures r.Some? ==> Raw(r.value) == raw
    ensures r.None? ==> forall v: CardValue :: Raw(v) != raw
  {
    match raw
    case Number(n) =>
      if n == 1 then Some(One)
      else if n == 2 then Some(Two)
      else if n == 3 then Some(Three)
      else if n == 4 then Some(Four)
      else if n == 5 then Some(Five)
      else if n == 6 then Some(Six)
      else None
    case Text(s) => if s == "Llama" then Some(Llama) else None
  }

  /** Every card value's own representation is accepted and parsed back to it. */
  lemma ParseRawRoundTrip(v: CardValue)
    ensures ParseCardValue(Raw(v)) == Some(v)
  {
  }
}

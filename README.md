# L.A.M.A. rules engine in Dafny

This project models the rules engine of the four-player card game L.A.M.A. and proves its rules. It covers:

- the rule tables: card values, the play cycle 1→2→…→6→Llama→1, and the penalty values;
- cards and the legal-play test;
- the 56-card deck with its shuffle, deal and draw;
- the players' hands, status, hand penalty and tokens;
- the shared token bank: distribution, return, exchange, and the best-token bonus;
- a round: dealing, the turn actions, turn order and the end check;
- the multi-round game: starting a round, scoring it, game over, winners and standings;
- the decision policy of a computer-controlled player.

One Dafny module follows each source file:

| Module | File | Source |
|---|---|---|
| `Constants` | `constants.dfy` | `src/constants.js` |
| `Cards` | `card.dfy` | `src/game/Card.js` |
| `Decks` | `deck.dfy` | `src/game/Deck.js` |
| `Players` | `player.dfy` | `src/game/Player.js` |
| `Tokens` | `token_bank.dfy` | `src/game/TokenBank.js` |
| `Rounds` | `round.dfy` | `src/game/Round.js` |
| `Games` | `game.dfy` | `src/game/Game.js` |
| `AiPlayers` | `ai_player.dfy` | `src/ai/AiPlayer.js` |

The model takes the source's own form:

- **Classes with mutable fields.** Objects whose fields the source updates in place are classes: the deck, a player, the token bank, a round and the game.
  - The deck keeps its cards in an `array` and shrinks a `size` from the end, as `splice` and `pop` do.
  - A hand is a `seq<Card>` field that the methods reassign.
  - Where a method touches only some fields, its `modifies` clause names just those fields.
- **Identity.** Cards are objects with a constant value, so `removeCard` removes by identity, as `indexOf` does.
- **Loops.** Loops in the source are `while` loops with invariants, including those inside queries such as `getHandPenalty`, `getActivePlayerCount`, `getWinners` and the AI's filter and argmax. Each such method is proved against a specification function.
- **Token specifications.** Every token-bank method is specified by a pure function over a `Ledger`: the bank's two supplies plus one player's two holdings. Each function is proved to conserve every token colour and to keep every count non-negative.
- **Scoring specification.** Scoring is specified by `PayRun`, a fold over the seats that carries the summary lines, the supplies and every seat's holding. Its lemmas prove three things:
  - conservation;
  - soundness;
  - exact payment when the white supply covers the penalties.
- **Errors.** Each `throw` in the source is an `Err` of a `Result`, with a `Failure` that names the error. The Card constructor's `Invalid card value` becomes `InvalidCardValue`.

Two behaviours of the code worth noting:

- `drawCard` does not run the round-end check (src/game/Round.js:79-88).
- `distributeTokens` does not lose the points of a short black supply. The missing tens are added to the white amount, which only the white supply caps (src/game/TokenBank.js:34-37).

## Model

| member | source | states |
|---|---|---|
| Constants.Position | src/constants.js:21-29 | each card value sits at exactly one position of ALL_CARD_VALUES |
| Constants.NextIterPosition | src/constants.js:32-40 | applying NEXT_VALUE k times moves k places along ALL_CARD_VALUES, wrapping after seven |
| Constants.NextValueIsSuccessor | src/constants.js:32-40 | NEXT_VALUE of a value is the next entry of ALL_CARD_VALUES, Llama wrapping to 1 |
| Constants.NextValueCycle | src/constants.js:32-40 | k applications of NEXT_VALUE (1 ≤ k ≤ 7) return to the start exactly when k is 7 |
| Constants.NextValueBijection | src/constants.js:32-40 | NEXT_VALUE has no fixed point, is injective and is onto the seven values |
| Constants.PenaltyValueTable | src/constants.js:43-51 | the penalty is the face value for 1..6 and LLAMA_PENALTY = 10 for the Llama, always in {1..6, 10} |
| Constants.AllValuesListed | src/constants.js:21-29 | seven distinct values, listing every value |
| Constants.RuleCounts | src/constants.js:79-82 | 8 copies × 7 values = 56 cards; dealing 4 × 6 cards and a top card needs 25 ≤ 56 |
| Constants.ParseCardValue | src/game/Card.js:21-23 | a raw value is accepted exactly when it is the representation of some card value, and then parses to that value |
| Constants.ParseRawRoundTrip | src/constants.js:10-18 | every card value's own representation parses back to that value |
| Cards.NewCard | src/game/Card.js:20-26 | construction fails with InvalidCardValue exactly for a raw value outside ALL_CARD_VALUES; otherwise the result is a fresh card carrying that value |
| Cards.Card.CanPlayOn | src/game/Card.js:38-42 | playable exactly when there is a top card and the value is the top's value or one step after it in the cycle; never on null |
| Cards.Card.PenaltyPoints | src/game/Card.js:45-47 | the penalty is the face value for 1..6 and 10 for the Llama |
| Cards.PlaysOnReflexive | src/game/Card.js:41 | every value can be played on itself |
| Cards.TwoPlayableValues | src/game/Card.js:41 | for each top value exactly two values are playable: the value itself and its successor |
| Cards.PlayTable | src/game/Card.js:41 | the full table of playable values for each of the seven top values |
| Cards.PlaysOnAsymmetric | src/game/Card.js:41 | for two different values, playability holds in at most one direction |
| Cards.PlaysOnExamples | src/game/Card.js:41 | 2 on 1 is legal, 1 on 2 and 2 on 4 are not; 1 on Llama is legal, Llama on 1 is not |
| Decks.Deck.constructor | src/game/Deck.js:21-28 | 56 pairwise distinct cards, eight of each value in ALL_CARD_VALUES order |
| Decks.FreshDeckComposition | src/game/Deck.js:21-28 | a deck built in that order holds exactly eight cards of every value |
| Decks.FreshValuesIndex | src/game/Deck.js:23-27 | the building loops put the value ALL_CARD_VALUES[k / 8] at position k, 8n positions after n values |
| Decks.BlockStep | src/game/Deck.js:24-26 | one more pass of the inner loop adds eight copies of its value and nothing else |
| Decks.BlockCounts | src/game/Deck.js:23-27 | after n blocks of eight, each of the first n values occurs eight times and no other value occurs |
| Decks.Deck.Shuffle | src/game/Deck.js:31-40 | the shuffle swaps in place, keeps the size and the multiset of cards, and returns the deck itself |
| Decks.Deck.Deal | src/game/Deck.js:47-52 | asking for more cards than remain fails and changes nothing; otherwise returns the last `count` cards in pile order and keeps the prefix |
| Decks.Deck.Draw | src/game/Deck.js:55-57 | a non-empty pile loses its last card, which is returned; an empty pile returns null and stays empty |
| Decks.Deck.Peek | src/game/Deck.js:60-64 | returns the card Draw would return, without changing the pile |
| Decks.Deck.IsEmpty | src/game/Deck.js:67-69 | true exactly when no card remains |
| Decks.Deck.Remaining | src/game/Deck.js:72-74 | the number of cards in the pile |
| Players.Player.constructor | src/game/Player.js:21-27 | empty hand, no tokens, active |
| Players.Player.AddCard | src/game/Player.js:34-36 | appends exactly that card |
| Players.Player.AddCards | src/game/Player.js:38-42 | appends the given cards in order |
| Players.IndexOf | src/game/Player.js:46 | the first position holding that very card object |
| Players.Player.RemoveCard | src/game/Player.js:45-51 | removes the first occurrence of that card object and nothing else; a card not held fails and leaves the hand unchanged |
| Players.RemoveFirstTakesOne | src/game/Player.js:50 | removal takes exactly one copy of the card out of the hand's multiset |
| Players.PlayableIn | src/game/Player.js:72-80 | the filtered hand holds exactly the hand's cards that can go on the top card |
| Players.Player.HasPlayableCard | src/game/Player.js:64-69 | true exactly when some card of the hand can be played on the top card, that is, when the filter is non-empty |
| Players.Player.GetPlayableCards | src/game/Player.js:72-80 | the order-preserving filter of the hand by CanPlayOn |
| Players.Player.Quit | src/game/Player.js:84 | status becomes QUIT; the hand and tokens are untouched |
| Players.Player.ResetForRound | src/game/Player.js:89-92 | empty hand and ACTIVE status; tokens untouched |
| Players.Player.GetHandPenalty | src/game/Player.js:100-111 | the one-pass loop computes HandPenalty: each distinct value in the hand costs its penalty once |
| Players.PenaltySumAllValues | src/game/Player.js:100-111 | the hand penalty written out as the sum, over the seven values, of the penalty of each value present |
| Players.HandPenaltyMaximum | src/game/Player.js:100-111 | a hand's penalty is at most 31, reached exactly when all seven values are present |
| Players.HandPenaltyAddCard | src/game/Player.js:104-108 | a card of a value already held leaves the penalty unchanged; a new value adds its penalty |
| Players.HandPenaltyExamples | src/game/Player.js:100-111 | an empty hand costs 0, three 5s cost 5, and 3, 3, 6, Llama cost 19 |
| Players.Player.AddWhiteTokens | src/game/Player.js:123 | the white count changes by exactly n |
| Players.Player.AddBlackTokens | src/game/Player.js:124 | the black count changes by exactly n |
| Tokens.Allocate | src/game/TokenBank.js:34-37 | black is as many tens as the points and the black supply allow, and white covers as much of the rest as the white supply allows |
| Tokens.AllocateUnique | src/game/TokenBank.js:34-37 | Allocate's contract admits exactly one split |
| Tokens.AllocateShortfallInWhite | src/game/TokenBank.js:34-37 | the player receives exactly the points whenever the white supply covers what black does not; a short black supply is paid in white |
| Tokens.AllocateExamples | src/game/TokenBank.js:34-37 | 23 points give 2 black and 3 white; with one black left, 1 black and 13 white; 0 gives nothing |
| Tokens.Distributed | src/game/TokenBank.js:33-45 | distribution conserves both colours, keeps every count non-negative, and pays at most the points, exactly the points when white suffices |
| Tokens.TokenBank.constructor | src/game/TokenBank.js:19-22 | a new bank holds 50 white and 20 black tokens |
| Tokens.TokenBank.DistributeTokens | src/game/TokenBank.js:33-45 | returns the Allocate split and moves exactly that from the bank to the player |
| Tokens.Returned | src/game/TokenBank.js:51-63 | succeeds exactly when the player holds a token of that type, moving one to the bank and lowering the points by its value; otherwise nothing changes |
| Tokens.TokenBank.ReturnToken | src/game/TokenBank.js:51-63 | the bank and the player change as Returned says |
| Tokens.BestReturned | src/game/TokenBank.js:71-86 | returns black if the player holds one or can exchange ten white for one; else white if held; else nothing changes; conserves both colours |
| Tokens.BestReturnedExample | src/game/TokenBank.js:71-86 | a player with 12 white and no black hands back a black token after exchanging, ending on 2 points |
| Tokens.TokenBank.ReturnBestToken | src/game/TokenBank.js:71-86 | the bank and the player change as BestReturned says |
| Tokens.BlackToWhite | src/game/TokenBank.js:110-120 | succeeds exactly when the player holds a black and the bank ten white; points and totals are unchanged; a failure changes nothing |
| Tokens.WhiteToBlack | src/game/TokenBank.js:123-133 | succeeds exactly when the player holds ten white and the bank a black; points and totals are unchanged; a failure changes nothing |
| Tokens.Exchanged | src/game/TokenBank.js:99-107 | an exchange from either colour conserves each colour, keeps counts non-negative and keeps the player's points; a failed one changes nothing; a successful one moves exactly one black token |
| Tokens.ExchangeRoundTrip | src/game/TokenBank.js:99-133 | black→white followed by white→black restores every count |
| Tokens.TokenBank.Exchange | src/game/TokenBank.js:99-107 | the bank and the player change as the exchange from the given type says |
| Tokens.TokenBank.ExchangeBlackToWhite | src/game/TokenBank.js:110-120 | the bank and the player change as BlackToWhite says |
| Tokens.TokenBank.ExchangeWhiteToBlack | src/game/TokenBank.js:123-133 | the bank and the player change as WhiteToBlack says |
| Rounds.Round.constructor | src/game/Round.js:23-33 | each seat in order receives the next six cards from the top of the pile, then the next card becomes the top card; the current seat is the start and the round is in progress |
| Rounds.Round.DealInitialHands | src/game/Round.js:35-41 | seat i receives the six cards that lie 6i to 6i + 6 below the top of the pile, in pile order; the pile loses exactly those 24 cards |
| Rounds.Round.TurnCheck | src/game/Round.js:100-107 | the acting player passes exactly when it holds the turn and is active; otherwise NotPlayersTurn takes precedence, and the turn holder who has quit gets PlayerNotActive |
| Rounds.Round.GetRoundEndReason | src/game/Round.js:55 | no reason while the round runs; HAND_EMPTY exactly when a hand emptied |
| Rounds.Round.GetHandEmptyPlayer | src/game/Round.js:56 | a player is recorded exactly when the round ended by an empty hand, and it is the player whose hand emptied |
| Rounds.Round.IsRoundOver | src/game/Round.js:49 | true exactly when the round has ended |
| Rounds.Round.GetCurrentPlayer | src/game/Round.js:51-53 | the current player is one of the round's players, the one in the turn seat |
| Rounds.Round.PlayCard | src/game/Round.js:64-73 | fails with the turn error, IllegalPlay or CardNotInHand, changing nothing; otherwise the card leaves the hand, becomes the top card, and the end check runs |
| Rounds.Round.DrawCard | src/game/Round.js:79-88 | fails with the turn error or IllegalDraw, changing nothing; otherwise the pile's top card moves to the hand and no end check runs |
| Rounds.Round.QuitRound | src/game/Round.js:91-95 | fails with the turn error; otherwise the player becomes QUIT, the active count drops by one, and the end check runs |
| Rounds.Round.CanDraw | src/game/Round.js:110-114 | true exactly when the pile is not empty and the player is not the last active one |
| Rounds.Round.IsLastActivePlayer | src/game/Round.js:117-120 | true exactly when one player is active and it is this player |
| Rounds.Round.GetActivePlayerCount | src/game/Round.js:123-129 | the number of players with ACTIVE status, at most four |
| Rounds.CountActiveZero | src/game/Round.js:123-129 | the count is zero exactly when nobody is active |
| Rounds.CountActiveQuit | src/game/Round.js:91-95 | an active player quitting lowers the count by exactly one |
| Rounds.ActionList | src/game/Round.js:132-142 | QUIT always, last; PLAY_CARD exactly when playable, first; DRAW_CARD exactly when drawing is allowed; no duplicates |
| Rounds.Round.GetValidActions | src/game/Round.js:132-142 | the action list for the hand's playability and the draw rule |
| Rounds.Steps | src/game/Round.js:153-159 | the loop's step count is the first active seat after the start, or a full lap |
| Rounds.NextActive | src/game/Round.js:150-161 | the seat the turn moves to is one of the four seats |
| Rounds.NextActiveSpec | src/game/Round.js:150-161 | the turn goes to the first active seat after the current one in cyclic order, and back to the same seat exactly when no other seat is active |
| Rounds.NextActiveExamples | src/game/Round.js:150-161 | with all active, 0 goes to 1 and 3 wraps to 0; quit seats are skipped; a lone active seat keeps the turn |
| Rounds.Round.AdvanceTurn | src/game/Round.js:150-161 | an ended round keeps its seat; otherwise the turn moves to NextActive |
| Rounds.Round.NextActiveSeat | src/game/Round.js:153-159 | the stepping loop stops at NextActive of the starting seat |
| Rounds.FirstEmpty | src/game/Round.js:184-191 | the lowest seat with an empty hand, or the seat count when there is none |
| Rounds.CheckedSpec | src/game/Round.js:166-181 | an ended round never changes; otherwise an empty hand ends it HAND_EMPTY, recording the lowest such seat; else no active player ends it ALL_QUIT |
| Rounds.Round.CheckRoundEnd | src/game/Round.js:166-181 | the state becomes Checked of the old state |
| Rounds.Round.FindEmptyHandPlayer | src/game/Round.js:184-191 | the player at the lowest seat with an empty hand, or null |
| Games.Game.constructor | src/game/Game.js:36-52 | four fresh players with indices 0 to 3, empty hands, active and on 0 points; a full bank; round 0; the given starting seat; no round |
| Games.Game.StartNewRound | src/game/Game.js:69-78 | the round number rises by one; every player is dealt six cards and is active, with tokens kept; the new round starts at the unchanged starting seat with 31 cards left; it needs only the seats, so token grants made outside the bank are accepted, and a game whose tokens were conserved stays so |
| Games.Game.DealRound | src/game/Game.js:72-76 | a fresh shuffled deck dealt to the emptied hands: six cards each, a top card, 31 cards left, the turn at the starting seat |
| Games.Game.ResetPlayersForRound | src/game/Game.js:81-85 | every player has an empty hand and is active; token counts are outside its frame |
| Games.Game.AdvanceStartingPlayer | src/game/Game.js:88-91 | the starting seat moves on by one modulo four |
| Games.Penalties | src/game/Game.js:104-106 | each seat's hand penalty, in seat order |
| Games.PayStep | src/game/Game.js:105-113 | one seat's payment adds exactly one line and only shrinks the supplies |
| Games.PayRun | src/game/Game.js:104-114 | the fold adds one line per seat and keeps both supplies between zero and their start |
| Games.PayRunAt | src/game/Game.js:105-113 | seat k's line carries index k, its penalty, the split against the supplies the earlier seats left, and its points after payment; its holding grows by exactly that split |
| Games.PayRunConserves | src/game/Game.js:104-114 | scoring conserves tokens: supply plus all holdings stays the same for each colour |
| Games.PayRunSound | src/game/Game.js:104-114 | no seat's holding goes negative |
| Games.PayRunWhiteBound | src/game/Game.js:104-114 | the white supply drops by at most the sum of the penalties |
| Games.PayoutExact | src/game/Game.js:104-114 | when the white supply covers all penalties, every seat receives tokens worth exactly its penalty |
| Games.Game.PayPlayer | src/game/Game.js:105-113 | one loop iteration takes the run one PayStep further |
| Games.Game.PayPenalties | src/game/Game.js:104-114 | the summary lines, the supplies and the holdings are PayRun over the hand penalties; totals conserved; soundness kept |
| Games.Game.HandleEmptyHandBonus | src/game/Game.js:122-134 | nothing changes unless the round ended HAND_EMPTY; then the bank, the holdings and the summary are BonusPaid for that seat: it returns its best token, the summary names it and the token and refreshes its points |
| Games.BonusPaidEffect | src/game/Game.js:122-134 | the bonus changes only the emptied seat's holding and line; totals are conserved, no count goes negative, and the seat loses exactly the value of the token named |
| Games.Game.Settle | src/game/Game.js:101-116 | the penalty payout of PayRun, then the bonus applied to its result (SettledAs); totals conserved; soundness kept |
| Games.Game.ScoreRound | src/game/Game.js:100-119 | the summary, supplies and holdings are SettledAs the PayRun payout and the round's end reason; the starting seat advances whatever the end reason; it needs only the seats and a current round, and the bank plus all holdings keeps its totals per colour, whatever they were |
| Games.Game.IsGameOver | src/game/Game.js:139-146 | true exactly when some player holds at least 40 points |
| Games.MinOf | src/game/Game.js:150-154 | the least entry, which occurs in the sequence |
| Games.AtPoints | src/game/Game.js:155-160 | exactly the players on the given points, each of them one of the players |
| Games.Game.LowestPoints | src/game/Game.js:150-154 | the first loop finds the minimum of the players' points |
| Games.Game.PlayersWithPoints | src/game/Game.js:155-160 | the second loop collects exactly the players on the given points, in seat order |
| Games.WinnersOnMinimum | src/game/Game.js:149-162 | the players on the minimum are never none, and none of them holds more points than any player |
| Games.Game.GetWinners | src/game/Game.js:149-162 | the players on the minimum points, in seat order; never empty; none holds more points than any player |
| Games.InsertByPointsSorted | src/game/Game.js:166-168 | inserting into an ascending sequence keeps it ascending |
| Games.SortByPoints | src/game/Game.js:166-168 | a permutation of the players in ascending order of points |
| Games.Game.GetStandings | src/game/Game.js:165-169 | a sorted permutation of the four players; the game's own list is left as it is |
| AiPlayers.FindPlayableCards | src/ai/AiPlayer.js:45-55 | the hand's cards playable on the round's top card, in hand order |
| AiPlayers.ChooseCardToPlay | src/ai/AiPlayer.js:62-70 | PLAY_CARD with a card of the highest penalty, the earliest on ties |
| AiPlayers.FirstMaxUnique | src/ai/AiPlayer.js:62-70 | at most one position is the first maximum, so the choice is determined |
| AiPlayers.ShouldDraw | src/ai/AiPlayer.js:79-84 | draw exactly when drawing is allowed and the hand penalty exceeds 5 |
| AiPlayers.DecideAction | src/ai/AiPlayer.js:28-37 | the action is always among the valid actions. With a playable card it plays the costliest legal card from the hand, the earliest on ties. Otherwise the card is null, and it draws exactly when drawing is allowed and the penalty exceeds 5, else quits |

## Left out

- User interface: the rendering, animation, input, layout and scene code is not part of this model. Neither are `main.js`, the display constants and the test runners.
- Randomness:
  - `Decks.Deck.Shuffle`: the random index of each Fisher-Yates step is any `j` in `[0, i]`. The model proves that the multiset is preserved, not that the shuffle is uniform.
  - `Games.Game.constructor`: the random starting seat is a parameter in `[0, 4)`.
- Strings: enum string values, error messages and `toString` become datatype constructors and `Failure` values.
- `Rounds.Round.constructor`: requires a pile of at least 24 cards. With fewer cards, the source's `deal` throws partway through dealing. Every caller passes a fresh 56-card deck.
- `Rounds.Round.DealInitialHands`: requires the same 24 cards, for the same reason.
- `Decks.Deck.Deal`: the count is a `nat`. A negative count, which `splice(-count, count)` would accept, is not modelled.
- `Games.Game.ScoreRound`: requires a current round. With no round, the source pays out the penalties and then fails with a type error.
- `Games.Game.GetStandings`: proves a sorted permutation. It does not prove that players on equal points keep their seat order. The insertion used does keep it.
- `Games.Game.ResetPlayersForRound`: the unchanged token counts follow from its frame, which names only the hands and statuses. No separate clause states them.
- `Tokens.TokenBank.Exchange`: the token type is a two-constructor datatype. The source's `false` for an unknown type string cannot arise.
- `Rounds.Round.DrawCard`: the source returns null when the pile yields no card. That branch is unreachable once the draw is allowed, so the model returns the card.
- Getters that only return a field (`getPlayers`, `getDeck`, `getIndex`, token and supply counts) are the fields themselves. `HandSize`, `HasEmptyHand`, `IsActive` and `TotalPoints` are one-line functions. The method bodies call `IsActive` and `HasEmptyHand`, and the points contracts of `Games` are stated with `TotalPoints`.

/** A seat at the table: hand, token counts, active/quit status and hand scoring (src/game/Player.js). */
module Players {
  import opened Constants
  import opened Cards

  /** Position of the first occurrence of the card object `c` in `cs` (JavaScript `indexOf`, by identity). */
  function IndexOf(cs: seq<Card>, c: Card): (k: nat)
    requires c in cs
    ensures k < |cs| && cs[k] == c && c !in cs[..k]
  {
    if cs[0] == c then 0 else 1 + IndexOf(cs[1..], c)
  }

  /** A position holding `c` with no `c` before it is the position IndexOf finds. */
  lemma {:induction false} IndexOfFirst(cs: seq<Card>, c: Card, i: nat)
    requires i < |cs| && cs[i] == c && c !in cs[..i]
    ensures IndexOf(cs, c) == i
  {
    if i > 0 {
      assert cs[0] == cs[..i][0];
      assert cs[1..][..i - 1] == cs[1..i];
      assert cs[..i] == [cs[0]] + cs[1..i];
      IndexOfFirst(cs[1..], c, i - 1);
    }
  }

  /** `cs` with the element at position `k` taken out (JavaScript `splice(k, 1)`). */
  function Without(cs: seq<Card>, k: nat): seq<Card>
    requires k < |cs|
  {
    cs[..k] + cs[k + 1..]
  }

  /** Removing the first occurrence of `c` takes exactly one copy of `c` out of the hand. */
  lemma RemoveFirstTakesOne(cs: seq<Card>, c: Card)
    requires c in cs
    ensures |Without(cs, IndexOf(cs, c))| == |cs| - 1
    ensures multiset(Without(cs, IndexOf(cs, c))) == multiset(cs) - multiset{c}
  {
    var k := IndexOf(cs, c);
    var front, back := cs[..k], cs[k + 1..];
    assert cs == front + ([c] + back);
    assert Without(cs, k) == front + back;
    assert multiset(cs) == multiset(front) + multiset{c} + multiset(back);
  }

  /** The cards of `hand` that may be played on `top`, in hand order. */
  function PlayableIn(hand: seq<Card>, top: Card?): (r: seq<Card>)
    ensures |r| <= |hand|
    ensures forall k :: 0 <= k < |r| ==> r[k] in hand && r[k].CanPlayOn(top)
    ensures forall k :: 0 <= k < |hand| && hand[k].CanPlayOn(top) ==> hand[k] in r
  {
    if hand == [] then []
    else (if hand[0].CanPlayOn(top) then [hand[0]] else []) + PlayableIn(hand[1..], top)
  }

  /** Filtering a hand that grew by one card extends the filtered list by that card, if it is playable. */
  lemma {:induction false} PlayableInSnoc(hand: seq<Card>, c: Card, top: Card?)
    ensures PlayableIn(hand + [c], top) == PlayableIn(hand, top) + (if c.CanPlayOn(top) then [c] else [])
  {
    if hand == [] {
      assert hand + [c] == [c];
    } else {
      assert (hand + [c])[1..] == hand[1..] + [c];
      PlayableInSnoc(hand[1..], c, top);
    }
  }

  /** The distinct values present in a hand. */
  function ValueSet(hand: seq<Card>): set<CardValue>
  {
    set k | 0 <= k < |hand| :: hand[k].value
  }

  /** Sum of the penalties of those values of `vals` that belong to `present`. */
  function PenaltySum(vals: seq<CardValue>, present: set<CardValue>): nat
  {
    if vals == [] then 0
    else (if vals[0] in present then PenaltyValue(vals[0]) else 0) + PenaltySum(vals[1..], present)
  }

  /** The duplicate rule: every distinct value in the hand costs its penalty once. */
  function HandPenalty(hand: seq<Card>): nat
  {
    PenaltySum(ALL_CARD_VALUES, ValueSet(hand))
  }

  /** Adding a value that `vals` lists once, and that is not yet present, adds its penalty once. */
  lemma {:induction false} PenaltySumInsert(vals: seq<CardValue>, present: set<CardValue>, v: CardValue)
    requires v !in present
    requires forall i, j :: 0 <= i < j < |vals| ==> vals[i] != vals[j]
    ensures PenaltySum(vals, present + {v}) == PenaltySum(vals, present) + (if v in vals then PenaltyValue(v) else 0)
  {
    if vals != [] {
      PenaltySumInsert(vals[1..], present, v);
      assert v in vals <==> v == vals[0] || v in vals[1..];
      assert forall j :: 0 <= j < |vals| - 1 ==> vals[1..][j] == vals[j + 1] != vals[0];
      assert vals[0] !in vals[1..];
    }
  }

  /** The hand penalty written out over the seven values: each value present adds its penalty once. */
  lemma PenaltySumAllValues(present: set<CardValue>)
    ensures PenaltySum(ALL_CARD_VALUES, present) ==
      (if One in present then 1 else 0) + (if Two in present then 2 else 0) +
      (if Three in present then 3 else 0) + (if Four in present then 4 else 0) +
      (if Five in present then 5 else 0) + (if Six in present then 6 else 0) +
      (if Llama in present then 10 else 0)
  {
    var vals := ALL_CARD_VALUES;
    assert vals[1..] == [Two, Three, Four, Five, Six, Llama];
    assert vals[2..] == [Three, Four, Five, Six, Llama];
    assert vals[3..] == [Four, Five, Six, Llama];
    assert vals[4..] == [Five, Six, Llama];
    assert vals[5..] == [Six, Llama];
    assert vals[6..] == [Llama];
    assert vals[7..] == [];
    assert PenaltySum(vals[6..], present) == (if Llama in present then 10 else 0);
    assert PenaltySum(vals[5..], present) == (if Six in present then 6 else 0) + PenaltySum(vals[6..], present);
    assert PenaltySum(vals[4..], present) == (if Five in present then 5 else 0) + PenaltySum(vals[5..], present);
    assert PenaltySum(vals[3..], present) == (if Four in present then 4 else 0) + PenaltySum(vals[4..], present);
    assert PenaltySum(vals[2..], present) == (if Three in present then 3 else 0) + PenaltySum(vals[3..], present);
    assert PenaltySum(vals[1..], present) == (if Two in present then 2 else 0) + PenaltySum(vals[2..], present);
  }

  /** A hand's penalty is at most 31 = 1+2+3+4+5+6+10, reached exactly when every value is present. */
  lemma HandPenaltyMaximum(hand: seq<Card>)
    ensures HandPenalty(hand) <= 31
    ensures HandPenalty(hand) == 31 <==> ValueSet(hand) == {One, Two, Three, Four, Five, Six, Llama}
  {
    PenaltySumAllValues(ValueSet(hand));
    var all := {One, Two, Three, Four, Five, Six, Llama};
    forall v: CardValue ensures v in all {
      assert v.One? || v.Two? || v.Three? || v.Four? || v.Five? || v.Six? || v.Llama?;
    }
    if HandPenalty(hand) == 31 {
      var present := ValueSet(hand);
      assert One in present && Two in present && Three in present && Four in present;
      assert Five in present && Six in present && Llama in present;
      assert present == all;
    }
  }

  /** The values of a hand grown by one card are the old values plus that card's value. */
  lemma ValueSetSnoc(hand: seq<Card>, c: Card)
    ensures ValueSet(hand + [c]) == ValueSet(hand) + {c.value}
  {
    forall v | v in ValueSet(hand + [c]) ensures v in ValueSet(hand) + {c.value} {
      var k :| 0 <= k < |hand + [c]| && (hand + [c])[k].value == v;
      if k < |hand| { assert hand[k].value == v; }
    }
    forall v | v in ValueSet(hand) ensures v in ValueSet(hand + [c]) {
      var k :| 0 <= k < |hand| && hand[k].value == v;
      assert (hand + [c])[k].value == v;
    }
    assert (hand + [c])[|hand|].value == c.value;
  }

  /** Adding a card whose value is already in the hand leaves the penalty unchanged; a new value adds its penalty. */
  lemma HandPenaltyAddCard(hand: seq<Card>, c: Card)
    ensures c.value in ValueSet(hand) ==> HandPenalty(hand + [c]) == HandPenalty(hand)
    ensures c.value !in ValueSet(hand) ==> HandPenalty(hand + [c]) == HandPenalty(hand) + PenaltyValue(c.value)
  {
    ValueSetSnoc(hand, c);
    if c.value !in ValueSet(hand) {
      AllValuesListed();
      PenaltySumInsert(ALL_CARD_VALUES, ValueSet(hand), c.value);
    } else {
      assert ValueSet(hand) + {c.value} == ValueSet(hand);
    }
  }

  /** The worked examples: an empty hand costs 0, three 5s cost 5, and 3, 3, 6, Llama cost 19. */
  lemma HandPenaltyExamples(empty: seq<Card>, fives: seq<Card>, mixed: seq<Card>)
    requires empty == []
    requires Values(fives) == [Five, Five, Five]
    requires Values(mixed) == [Three, Three, Six, Llama]
    ensures HandPenalty(empty) == 0
    ensures HandPenalty(fives) == 5
    ensures HandPenalty(mixed) == 19
  {
    PenaltySumAllValues({});
    PenaltySumAllValues({Five});
    PenaltySumAllValues({Three, Six, Llama});
    assert ValueSet(empty) == {};
    assert ValueSet(fives) == {Five} by {
      assert Values(fives)[0] == fives[0].value;
    }
    assert ValueSet(mixed) == {Three, Six, Llama} by {
      assert Values(mixed)[0] == mixed[0].value;
      assert Values(mixed)[2] == mixed[2].value;
      assert Values(mixed)[3] == mixed[3].value;
    }
  }

  class Player {
    const index: nat
    var hand: seq<Card>
    var whiteTokens: int
    var blackTokens: int
    var status: PlayerStatus

    /** A new player: empty hand, no tokens, active. */
    constructor (i: nat)
      ensures index == i && hand == [] && whiteTokens == 0 && blackTokens == 0 && status == Active
    {
      index := i;
      hand := [];
      whiteTokens := 0;
      blackTokens := 0;
      status := Active;
    }

    method AddCard(c: Card)
      modifies this`hand
      ensures hand == old(hand) + [c]
    {
      hand := hand + [c];
    }

    /** Appends the given cards one at a time, in order. */
    method AddCards(cs: seq<Card>)
      modifies this`hand
      ensures hand == old(hand) + cs
    {
      var i := 0;
      while i < |cs|
        invariant 0 <= i <= |cs|
        invariant hand == old(hand) + cs[..i]
      {
        hand := hand + [cs[i]];
        i := i + 1;
      }
      assert cs[..i] == cs;
    }

    /** Removes the first occurrence of this very card object; a card not held fails and changes nothing. */
    method RemoveCard(c: Card) returns (r: Result<()>)
      modifies this`hand
      ensures c in old(hand) ==> r == Ok(()) && hand == Without(old(hand), IndexOf(old(hand), c))
      ensures c !in old(hand) ==> r == Err(CardNotInHand) && hand == old(hand)
    {
      var i := 0;
      while i < |hand| && hand[i] != c
        invariant 0 <= i <= |hand|
        invariant c !in hand[..i]
      {
        i := i + 1;
      }
      if i == |hand| {
        assert hand[..i] == hand;
        return Err(CardNotInHand);
      }
      IndexOfFirst(hand, c, i);
      hand := hand[..i] + hand[i + 1..];
      r := Ok(());
    }

    function HandSize(): nat
      reads this
    {
      |hand|
    }

    predicate HasEmptyHand()
      reads this
    {
      hand == []
    }

    predicate IsActive()
      reads this
    {
      status == Active
    }

    /** True when at least one card of the hand may be played on `top`. */
    method HasPlayableCard(top: Card?) returns (b: bool)
      ensures b <==> exists c :: c in hand && c.CanPlayOn(top)
      ensures b <==> PlayableIn(hand, top) != []
    {
      var i := 0;
      while i < |hand|
        invariant 0 <= i <= |hand|
        invariant forall k :: 0 <= k < i ==> !hand[k].CanPlayOn(top)
        invariant PlayableIn(hand[..i], top) == []
      {
        if hand[i].CanPlayOn(top) {
          assert hand[i] in PlayableIn(hand, top);
          return true;
        }
        PlayableInSnoc(hand[..i], hand[i], top);
        assert hand[..i + 1] == hand[..i] + [hand[i]];
        i := i + 1;
      }
      assert hand[..i] == hand;
      return false;
    }

    /** The playable cards of the hand, in hand order. */
    method GetPlayableCards(top: Card?) returns (playable: seq<Card>)
      ensures playable == PlayableIn(hand, top)
    {
      playable := [];
      var i := 0;
      while i < |hand|
        invariant 0 <= i <= |hand|
        invariant playable == PlayableIn(hand[..i], top)
      {
        PlayableInSnoc(hand[..i], hand[i], top);
        assert hand[..i + 1] == hand[..i] + [hand[i]];
        if hand[i].CanPlayOn(top) {
          playable := playable + [hand[i]];
        }
        i := i + 1;
      }
      assert hand[..i] == hand;
    }

    method Quit()
      modifies this`status
      ensures status == PlayerStatus.Quit
    {
      status := PlayerStatus.Quit;
    }

    /** Empties the hand and makes the player active again; tokens are kept. */
    method ResetForRound()
      modifies this`hand, this`status
      ensures hand == [] && status == Active
    {
      hand := [];
      status := Active;
    }

    /**
     * The hand's penalty under the duplicate rule, computed as the source does:
     * one pass over the hand, remembering which values were already charged.
     */
    method GetHandPenalty() returns (penalty: nat)
      ensures penalty == HandPenalty(hand)
    {
      var seen: set<CardValue> := {};
      penalty := 0;
      var i := 0;
      AllValuesListed();
      while i < |hand|
        invariant 0 <= i <= |hand|
        invariant seen == ValueSet(hand[..i])
        invariant penalty == PenaltySum(ALL_CARD_VALUES, seen)
      {
        var val := hand[i].value;
        ValueSetSnoc(hand[..i], hand[i]);
        assert hand[..i + 1] == hand[..i] + [hand[i]];
        if val !in seen {
          PenaltySumInsert(ALL_CARD_VALUES, seen, val);
          penalty := penalty + PenaltyValue(val);
        } else {
          assert seen + {val} == seen;
        }
        seen := seen + {val};
        i := i + 1;
      }
      assert hand[..i] == hand;
    }

    /** Points carried in tokens: a white token is worth 1, a black one 10. */
    function TotalPoints(): int
      reads this
    {
      TokenPoints(whiteTokens, blackTokens)
    }

    method AddWhiteTokens(n: int)
      modifies this`whiteTokens
      ensures whiteTokens == old(whiteTokens) + n
    {
      whiteTokens := whiteTokens + n;
    }

    method AddBlackTokens(n: int)
      modifies this`blackTokens
      ensures blackTokens == old(blackTokens) + n
    {
      blackTokens := blackTokens + n;
    }
  }
}

/** Immutable playing cards with the legal-play test and the penalty lookup (src/game/Card.js). */
module Cards {
  import opened Constants

  /**
   * A card. Its value never changes; its identity (the object reference) is what
   * a hand removes by, so two cards of equal value are still different cards.
   */
  class Card {
    const value: CardValue

    constructor (v: CardValue)
      ensures value == v
    {
      value := v;
    }

    /**
     * True when this card may be played on `top`: same value, or exactly one step
     * further along the cycle 1→2→…→6→Llama→1. No top card means no legal play.
     */
    function CanPlayOn(top: Card?): (b: bool)
      ensures b <==> top != null && (Position(value) - Position(top.value)) % 7 in {0, 1}
    {
      NextValueIsSuccessor(if top == null then One else top.value);
      top != null && PlaysOn(value, top.value)
    }

    /** Points this card costs if it is still in a hand when the round ends. */
    function PenaltyPoints(): (p: nat)
      ensures p in {1, 2, 3, 4, 5, 6, 10}
      ensures value != Llama ==> p == Position(value) + 1
      ensures value == Llama ==> p == LLAMA_PENALTY
    {
      PenaltyValueTable(value);
      PenaltyValue(value)
    }
  }

  /** Builds a card from a raw JavaScript value, failing as the constructor throws on an invalid one. */
  method NewCard(raw: RawValue) returns (r: Result<Card>)
    ensures r == Err(InvalidCardValue) <==> forall v: CardValue :: Raw(v) != raw
    ensures r.Ok? <==> exists v: CardValue :: Raw(v) == raw
    ensures r.Err? ==> r == Err(InvalidCardValue)
    ensures r.Ok? ==> fresh(r.value) && Raw(r.value.value) == raw
  {
    match ParseCardValue(raw)
    case Some(v) =>
      var c := new Card(v);
      r := Ok(c);
    case None =>
      r := Err(InvalidCardValue);
  }

  /** The values of a sequence of cards, in order. */
  function Values(cs: seq<Card>): (vs: seq<CardValue>)
    ensures |vs| == |cs| && forall k :: 0 <= k < |cs| ==> vs[k] == cs[k].value
  {
    seq(|cs|, k requires 0 <= k < |cs| => cs[k].value)
  }

  /** The value-level play rule: `v` goes on `top` when equal to it or equal to its NEXT_VALUE. */
  predicate PlaysOn(v: CardValue, top: CardValue)
  {
    v == top || v == NextValue(top)
  }

  /** Every value can be played on itself. */
  lemma PlaysOnReflexive(v: CardValue)
    ensures PlaysOn(v, v)
  {
  }

  /** For every top value exactly two values are playable: the value itself and its successor. */
  lemma TwoPlayableValues(top: CardValue)
    ensures (set v: CardValue | PlaysOn(v, top)) == {top, NextValue(top)}
    ensures |set v: CardValue | PlaysOn(v, top)| == 2
  {
    NextValueBijection(top, top);
    assert (set v: CardValue | PlaysOn(v, top)) == {top, NextValue(top)};
  }

  /** The playable values for each top value, written out as a table. */
  lemma PlayTable()
    ensures forall v: CardValue :: PlaysOn(v, One) <==> v in {One, Two}
    ensures forall v: CardValue :: PlaysOn(v, Two) <==> v in {Two, Three}
    ensures forall v: CardValue :: PlaysOn(v, Three) <==> v in {Three, Four}
    ensures forall v: CardValue :: PlaysOn(v, Four) <==> v in {Four, Five}
    ensures forall v: CardValue :: PlaysOn(v, Five) <==> v in {Five, Six}
    ensures forall v: CardValue :: PlaysOn(v, Six) <==> v in {Six, Llama}
    ensures forall v: CardValue :: PlaysOn(v, Llama) <==> v in {Llama, One}
  {
  }

  /**
   * Playability between two different values goes one way only: if `a` may follow `b`
   * then `b` may not follow `a`.
   */
  lemma PlaysOnAsymmetric(a: CardValue, b: CardValue)
    requires a != b && PlaysOn(a, b)
    ensures !PlaysOn(b, a)
  {
    NextValueIsSuccessor(a);
    NextValueIsSuccessor(b);
    PositionInjective(a, NextValue(a));
  }

  /** 2 may be played on 1, 1 may not be played on 2, and 2 may not be played on 4. */
  lemma PlaysOnExamples()
    ensures PlaysOn(Two, One) && !PlaysOn(One, Two) && !PlaysOn(Two, Four)
    ensures PlaysOn(One, Llama) && !PlaysOn(Llama, One)
  {
  }
}

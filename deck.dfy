/** The 56-card draw pile: built in a fixed order, shuffled in place, dealt and drawn from its end (src/game/Deck.js). */
module Decks {
  import opened Constants
  import opened Cards

  /** The card `Draw` would take: the last one, or null for an empty pile. */
  function Top(s: seq<Card>): Card?
  {
    if s == [] then null else s[|s| - 1]
  }

  /**
   * The pile is an array whose live part is `cards[..size]`; its end, `cards[size - 1]`,
   * is the top. Dealing and drawing only shrink `size`, as JavaScript's `splice` at the
   * end and `pop` do.
   */
  class Deck {
    var cards: array<Card>
    var size: nat

    ghost predicate Valid()
      reads this
    {
      size <= cards.Length
    }

    /** The cards in the pile, bottom first. */
    ghost function Cards(): seq<Card>
      reads this, cards
      requires Valid()
    {
      cards[..size]
    }

    /** A fresh pile: eight copies of each value, in ALL_CARD_VALUES order, all different cards. */
    constructor ()
      ensures Valid() && fresh(cards)
      ensures |Cards()| == TOTAL_CARDS
      ensures forall k :: 0 <= k < |Cards()| ==> Cards()[k].value == ALL_CARD_VALUES[k / COPIES_PER_VALUE]
      ensures forall i, j :: 0 <= i < j < |Cards()| ==> Cards()[i] != Cards()[j]
    {
      var built: seq<Card> := [];
      var v := 0;
      while v < |ALL_CARD_VALUES|
        invariant 0 <= v <= |ALL_CARD_VALUES|
        invariant |built| == v * COPIES_PER_VALUE
        invariant forall k :: 0 <= k < |built| ==> built[k].value == ALL_CARD_VALUES[k / COPIES_PER_VALUE]
        invariant forall i, j :: 0 <= i < j < |built| ==> built[i] != built[j]
      {
        var c := 0;
        while c < COPIES_PER_VALUE
          invariant 0 <= c <= COPIES_PER_VALUE
          invariant |built| == v * COPIES_PER_VALUE + c
          invariant forall k :: 0 <= k < |built| ==> built[k].value == ALL_CARD_VALUES[k / COPIES_PER_VALUE]
          invariant forall i, j :: 0 <= i < j < |built| ==> built[i] != built[j]
        {
          var card := new Card(ALL_CARD_VALUES[v]);
          assert (v * COPIES_PER_VALUE + c) / COPIES_PER_VALUE == v;
          built := built + [card];
          c := c + 1;
        }
        v := v + 1;
      }
      cards := new Card[|built|](k requires 0 <= k < |built| => built[k]);
      size := |built|;
      new;
      assert cards[..size] == built;
    }

    /** Number of cards left. */
    function Remaining(): (n: nat)
      reads this, cards
      requires Valid()
      ensures n == |Cards()|
    {
      size
    }

    /** True when no cards are left. */
    function IsEmpty(): (b: bool)
      reads this, cards
      requires Valid()
      ensures b <==> Cards() == []
    {
      size == 0
    }

    /** The top card without removing it: the card `Draw` would return. */
    function Peek(): (c: Card?)
      reads this, cards
      requires Valid()
      ensures c == Top(Cards())
      ensures c != null ==> c in Cards()
    {
      if size > 0 then cards[size - 1] else null
    }

    /**
     * Fisher-Yates shuffle in place. The random index of each step is left open:
     * any `j` in `[0, i]` may be chosen. Returns the deck itself.
     */
    method Shuffle() returns (self: Deck)
      requires Valid()
      modifies cards
      ensures self == this && Valid() && size == old(size)
      ensures multiset(Cards()) == multiset(old(Cards()))
    {
      var i := size as int - 1;
      while i > 0
        invariant -1 <= i < size
        invariant multiset(cards[..size]) == multiset(old(cards[..size]))
      {
        var j :| 0 <= j <= i;
        Swap(i, j);
        i := i - 1;
      }
      self := this;
    }

    /** Exchanges two cards of the pile. */
    method Swap(i: nat, j: nat)
      requires Valid() && i < size && j < size
      modifies cards
      ensures cards[i] == old(cards[j]) && cards[j] == old(cards[i])
      ensures forall k :: 0 <= k < cards.Length && k != i && k != j ==> cards[k] == old(cards[k])
      ensures multiset(cards[..size]) == multiset(old(cards[..size]))
    {
      var t := cards[i];
      cards[i] := cards[j];
      cards[j] := t;
      assert cards[..size] == old(cards[..size])[i := old(cards[j])][j := old(cards[i])];
    }

    /**
     * Removes and returns the top `count` cards, in pile order. Asking for more
     * than remain fails and leaves the pile as it was.
     */
    method Deal(count: nat) returns (r: Result<seq<Card>>)
      requires Valid()
      modifies this`size
      ensures Valid() && cards == old(cards)
      ensures count > old(size) ==> r == Err(NotEnoughCards) && size == old(size)
      ensures count <= old(size) ==>
        && r == Ok(old(Cards())[old(size) - count..])
        && Cards() == old(Cards())[..old(size) - count]
    {
      if count > size {
        return Err(NotEnoughCards);
      }
      r := Ok(cards[size - count..size]);
      size := size - count;
    }

    /** Removes and returns the top card; an empty pile returns null and stays empty. */
    method Draw() returns (c: Card?)
      requires Valid()
      modifies this`size
      ensures Valid() && cards == old(cards)
      ensures c == Top(old(Cards()))
      ensures old(size) == 0 ==> size == 0
      ensures old(size) > 0 ==> Cards() == old(Cards())[..old(size) - 1]
    {
      if size > 0 {
        c := cards[size - 1];
        size := size - 1;
      } else {
        c := null;
      }
    }
  }

  /** A sequence whose every element is `x` holds `x` as many times as it is long, and nothing else. */
  lemma {:induction false} UniformCount(b: seq<CardValue>, x: CardValue)
    requires forall k :: 0 <= k < |b| ==> b[k] == x
    ensures multiset(b)[x] == |b|
    ensures forall y :: y != x ==> multiset(b)[y] == 0
  {
    if b != [] {
      UniformCount(b[1..], x);
      assert b == [b[0]] + b[1..];
    }
  }

  /** Every position inside block `q` divides back to `q`. */
  lemma DivWithinBlock(q: nat, r: nat)
    requires r < COPIES_PER_VALUE
    ensures (q * COPIES_PER_VALUE + r) / COPIES_PER_VALUE == q
  {
  }

  /** The values of the first `n` blocks of a fresh deck: eight copies of each, in ALL_CARD_VALUES order. */
  ghost function FreshValues(n: nat): seq<CardValue>
    requires n <= |ALL_CARD_VALUES|
  {
    if n == 0 then [] else FreshValues(n - 1) + seq(COPIES_PER_VALUE, _ => ALL_CARD_VALUES[n - 1])
  }

  /** Position `k` of the fresh order lies in block `k / 8`. */
  lemma {:induction false} FreshValuesIndex(n: nat, k: nat)
    requires n <= |ALL_CARD_VALUES| && k < n * COPIES_PER_VALUE
    ensures |FreshValues(n)| == n * COPIES_PER_VALUE
    ensures FreshValues(n)[k] == ALL_CARD_VALUES[k / COPIES_PER_VALUE]
  {
    var m := (n - 1) * COPIES_PER_VALUE;
    if k < m {
      FreshValuesIndex(n - 1, k);
    } else {
      if n > 1 {
        FreshValuesIndex(n - 1, 0);
      }
      DivWithinBlock(n - 1, k - m);
    }
  }

  /** Appending block `n` adds eight copies of the `n`-th value and nothing else. */
  lemma BlockStep(n: nat, v: CardValue)
    requires 0 < n <= |ALL_CARD_VALUES|
    requires multiset(FreshValues(n - 1))[v] == if Position(v) < n - 1 then COPIES_PER_VALUE else 0
    ensures multiset(FreshValues(n))[v] == if Position(v) < n then COPIES_PER_VALUE else 0
  {
    var last := ALL_CARD_VALUES[n - 1];
    var block := seq(COPIES_PER_VALUE, _ => last);
    assert FreshValues(n) == FreshValues(n - 1) + block;
    assert multiset(FreshValues(n))[v] == multiset(FreshValues(n - 1))[v] + multiset(block)[v];
    UniformCount(block, last);
    PositionInjective(v, last);
  }

  /** The first `n` blocks of eight in the fresh-deck order hold eight copies of each of the first `n` values. */
  lemma {:induction false} BlockCounts(n: nat)
    requires n <= |ALL_CARD_VALUES|
    ensures forall v :: multiset(FreshValues(n))[v] == if Position(v) < n then COPIES_PER_VALUE else 0
  {
    if n > 0 {
      BlockCounts(n - 1);
      forall v ensures multiset(FreshValues(n))[v] == if Position(v) < n then COPIES_PER_VALUE else 0 {
        BlockStep(n, v);
      }
    }
  }

  /** A fresh deck holds 56 cards, eight of each of the seven values. */
  lemma FreshDeckComposition(s: seq<Card>)
    requires |s| == TOTAL_CARDS
    requires forall k :: 0 <= k < |s| ==> s[k].value == ALL_CARD_VALUES[k / COPIES_PER_VALUE]
    ensures forall v :: multiset(Values(s))[v] == COPIES_PER_VALUE
  {
    FreshValuesIndex(|ALL_CARD_VALUES|, 0);
    forall k | 0 <= k < |s| ensures Values(s)[k] == FreshValues(|ALL_CARD_VALUES|)[k] {
      FreshValuesIndex(|ALL_CARD_VALUES|, k);
    }
    assert Values(s) == FreshValues(|ALL_CARD_VALUES|);
    BlockCounts(|ALL_CARD_VALUES|);
  }
}

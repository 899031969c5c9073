/**
 * A standard 52-card deck: an ordered collection of distinct playing cards
 * that is populated in canonical order, can be shuffled, and is dealt from
 * the front.
 */
module Decks {
  import opened Wrappers
  import opened Cards

  /** No card occurs twice: the deck is an insertion-ordered set. */
  ghost predicate Distinct(s: seq<PlayingCard>)
  {
    forall i, j :: 0 <= i < j < |s| ==> s[i] != s[j]
  }

  /** The thirteen cards of one suit, Ace to King: one pass of the inner loop. */
  function SuitRun(suit: Suit): seq<PlayingCard>
  {
    seq(|AllRanks|, j requires 0 <= j < |AllRanks| => PlayingCard(AllRanks[j], suit))
  }

  /** The runs of the given suits one after another: the nested population loops. */
  function CardsOfSuits(suits: seq<Suit>): (cards: seq<PlayingCard>)
    ensures |cards| == 13 * |suits|
  {
    if suits == [] then [] else SuitRun(suits[0]) + CardsOfSuits(suits[1..])
  }

  /** The contents of a freshly constructed deck. */
  function CanonicalDeck(): seq<PlayingCard>
  {
    CardsOfSuits(AllSuits)
  }

  /** Where a card sits in the canonical deck: suit-major, rank-minor. */
  function CanonicalIndex(c: PlayingCard): nat
  {
    13 * SuitOrdinal(c.suit) + RankOrdinal(c.rank)
  }

  lemma {:induction false} CardsOfSuitsAt(suits: seq<Suit>, i: nat)
    requires i < 13 * |suits|
    ensures CardsOfSuits(suits)[i] == PlayingCard(AllRanks[i % 13], suits[i / 13])
  {
    if i >= 13 {
      CardsOfSuitsAt(suits[1..], i - 13);
      assert (i - 13) % 13 == i % 13 && (i - 13) / 13 == i / 13 - 1;
    }
  }

  /** Position i of the canonical deck holds rank i % 13 of suit i / 13. */
  lemma CanonicalOrder()
    ensures |CanonicalDeck()| == 52
    ensures forall i :: 0 <= i < 52 ==> CanonicalDeck()[i] == PlayingCard(AllRanks[i % 13], AllSuits[i / 13])
  {
    forall i | 0 <= i < 52
      ensures CanonicalDeck()[i] == PlayingCard(AllRanks[i % 13], AllSuits[i / 13])
    {
      CardsOfSuitsAt(AllSuits, i);
    }
  }

  /** Every card is at its canonical index, and every index holds the card it names. */
  lemma CanonicalPositions()
    ensures forall c: PlayingCard :: CanonicalIndex(c) < 52 && CanonicalDeck()[CanonicalIndex(c)] == c
    ensures forall i :: 0 <= i < 52 ==> CanonicalIndex(CanonicalDeck()[i]) == i
  {
    CanonicalOrder();
    RankValues();
    SuitValues();
    forall c: PlayingCard
      ensures CanonicalIndex(c) < 52 && CanonicalDeck()[CanonicalIndex(c)] == c
    {
      var i := CanonicalIndex(c);
      assert i % 13 == RankOrdinal(c.rank) && i / 13 == SuitOrdinal(c.suit);
    }
    forall i | 0 <= i < 52
      ensures CanonicalIndex(CanonicalDeck()[i]) == i
    {
      assert i == 13 * (i / 13) + i % 13;
    }
  }

  /** The canonical deck holds 52 cards, no card twice, and every rank-suit pair. */
  lemma CanonicalDeckDistinctAndComplete()
    ensures |CanonicalDeck()| == 52
    ensures Distinct(CanonicalDeck())
    ensures forall c: PlayingCard :: c in CanonicalDeck()
  {
    CanonicalOrder();
    CanonicalPositions();
    forall c: PlayingCard
      ensures c in CanonicalDeck()
    {
      assert CanonicalDeck()[CanonicalIndex(c)] == c;
    }
  }

  /** Dropping the front card of a distinct list leaves a distinct list without it. */
  lemma DistinctTail(s: seq<PlayingCard>)
    requires Distinct(s) && s != []
    ensures Distinct(s[1..]) && s[0] !in s[1..]
  {
    forall j | 0 <= j < |s[1..]| ensures s[1..][j] != s[0] {
      assert s[1..][j] == s[1 + j];
    }
  }

  /** Distinctness is "every card occurs at most once". */
  lemma {:induction false} DistinctIffNoRepeats(s: seq<PlayingCard>)
    ensures Distinct(s) <==> forall c :: multiset(s)[c] <= 1
  {
    if Distinct(s) {
      if s != [] {
        DistinctTail(s);
        DistinctIffNoRepeats(s[1..]);
        assert s == [s[0]] + s[1..];
      }
    } else {
      var i, j :| 0 <= i < j < |s| && s[i] == s[j];
      assert s == s[..j] + [s[j]] + s[j + 1..];
      assert s[i] in s[..j];
      assert multiset(s)[s[j]] == multiset(s[..j])[s[j]] + 1 + multiset(s[j + 1..])[s[j]];
    }
  }

  /** A distinct list of cards has at most 52 elements. */
  lemma {:induction false} DistinctAtMost52(s: seq<PlayingCard>)
    requires Distinct(s)
    ensures |s| <= 52
  {
    DistinctSetSize(s);
    CanonicalDeckDistinctAndComplete();
    DistinctSetSize(CanonicalDeck());
    var held, all := set c | c in s, set c | c in CanonicalDeck();
    assert all == held + (all - held);
    assert |all| == |held| + |all - held|;
  }

  lemma {:induction false} DistinctSetSize(s: seq<PlayingCard>)
    requires Distinct(s)
    ensures |set c | c in s| == |s|
  {
    if s != [] {
      DistinctTail(s);
      DistinctSetSize(s[1..]);
      assert (set c | c in s) == {s[0]} + (set c | c in s[1..]);
    }
  }

  /** Any reordering of the canonical deck is again a full deck: 52 distinct cards, every pair. */
  lemma FullDeckPermutation(s: seq<PlayingCard>)
    requires multiset(s) == multiset(CanonicalDeck())
    ensures |s| == 52 && Distinct(s)
    ensures forall c: PlayingCard :: c in s
  {
    CanonicalDeckDistinctAndComplete();
    assert |s| == |multiset(s)| == |multiset(CanonicalDeck())|;
    DistinctIffNoRepeats(CanonicalDeck());
    DistinctIffNoRepeats(s);
    forall c: PlayingCard
      ensures c in s
    {
      assert c in CanonicalDeck();
      assert c in multiset(CanonicalDeck());
    }
  }

  /** `List.remove(Object)`: drops the first element equal to x, if there is one. */
  function RemoveFirst(s: seq<PlayingCard>, x: PlayingCard): (r: seq<PlayingCard>)
    ensures multiset(r) == multiset(s) - multiset{x}
  {
    if s == [] then []
    else if s[0] == x then assert s == [s[0]] + s[1..]; s[1..]
    else assert s == [s[0]] + s[1..]; [s[0]] + RemoveFirst(s[1..], x)
  }

  /** Removing the card at position k, its first occurrence, leaves the others in order. */
  lemma {:induction false} RemoveFirstAt(s: seq<PlayingCard>, k: nat)
    requires k < |s| && s[k] !in s[..k]
    ensures RemoveFirst(s, s[k]) == s[..k] + s[k + 1..]
  {
    if k > 0 {
      var t, x := s[1..], s[k];
      assert s[0] in s[..k];
      assert t[k - 1] == x && t[..k - 1] == s[1..k];
      assert x !in t[..k - 1] by {
        assert forall y :: y in s[1..k] ==> y in s[..k];
      }
      RemoveFirstAt(t, k - 1);
      assert t[k..] == s[k + 1..];
      assert [s[0]] + s[1..k] == s[..k];
    }
  }

  class StandardDeck {
    /** The remaining cards, front first. */
    var deck: seq<PlayingCard>

    ghost predicate Valid()
      reads this
    {
      Distinct(deck)
    }

    /** Populates all 52 cards: for each suit in order, each rank in order. */
    constructor ()
      ensures Valid()
      ensures deck == CanonicalDeck()
    {
      var cards: seq<PlayingCard> := [];
      CanonicalOrder();
      CanonicalDeckDistinctAndComplete();
      for s := 0 to |AllSuits|
        invariant cards == CanonicalDeck()[..13 * s]
      {
        for r := 0 to |AllRanks|
          invariant cards == CanonicalDeck()[..13 * s + r]
        {
          var card := NewCard(Some(AllRanks[r]), Some(AllSuits[s]));
          assert card.value == CanonicalDeck()[13 * s + r];
          // the set never holds the new card already, so adding it appends it
          assert card.value !in cards;
          cards := cards + [card.value];
        }
      }
      assert cards == CanonicalDeck();
      deck := cards;
    }

    /**
     * Moves a card at a random position of a working copy to the end of a new
     * deck until the working copy is empty; the random position is any
     * index below the working copy's size.
     */
    method Shuffle()
      requires Valid()
      modifies this
      ensures Valid()
      ensures |deck| == |old(deck)|
      ensures multiset(deck) == multiset(old(deck))
    {
      var cardsInDeck := deck;
      var totalDeckLength := |cardsInDeck|;
      var newDeck: seq<PlayingCard> := [];
      DistinctIffNoRepeats(deck);
      for i := 0 to totalDeckLength
        invariant |cardsInDeck| == totalDeckLength - i
        invariant deck == old(deck)
        invariant multiset(cardsInDeck) + multiset(newDeck) == multiset(deck)
      {
        var k :| 0 <= k < |cardsInDeck|;
        var card := cardsInDeck[k];
        assert multiset(deck)[card] <= 1;
        // the new deck cannot hold the card already, so adding it appends it
        assert card !in newDeck;
        // the working copy holds no card twice, so removing the card by value
        // takes out exactly position k
        ghost var before := cardsInDeck;
        assert forall c :: multiset(before)[c] <= multiset(deck)[c];
        DistinctIffNoRepeats(before);
        assert card !in before[..k];
        RemoveFirstAt(before, k);
        cardsInDeck := RemoveFirst(cardsInDeck, card);
        assert cardsInDeck == before[..k] + before[k + 1..];
        newDeck := newDeck + [card];
      }
      assert cardsInDeck == [];
      assert multiset(newDeck) == multiset(deck);
      DistinctIffNoRepeats(newDeck);
      deck := newDeck;
    }

    /** Removes and returns the front card; on an empty deck returns None (Java's null). */
    method DealOneCard() returns (card: Option<PlayingCard>)
      requires Valid()
      modifies this
      ensures Valid()
      ensures old(deck) == [] ==> card == None && deck == []
      ensures old(deck) != [] ==> card == Some(old(deck)[0]) && deck == old(deck)[1..]
      ensures card.Some? ==> card.value !in deck
    {
      if |deck| > 0 {
        var cardsInDeck := deck;
        var selectedCard := cardsInDeck[0];
        cardsInDeck := cardsInDeck[1..];
        deck := cardsInDeck;
        return Some(selectedCard);
      }
      return None;
    }

    /** The current contents, front first. */
    method GetDeck() returns (cards: seq<PlayingCard>)
      requires Valid()
      ensures cards == deck
      ensures Distinct(cards) && |cards| <= 52
    {
      cards := deck;
      DistinctAtMost52(cards);
    }
  }

  /**
   * A fresh deck dealt to exhaustion: the cards come out in canonical order,
   * 52 distinct ones covering every pair, and every later deal gives None.
   */
  method DealWholeDeck() returns (dealt: seq<PlayingCard>, extra: Option<PlayingCard>, again: Option<PlayingCard>)
    ensures dealt == CanonicalDeck()
    ensures |dealt| == 52 && Distinct(dealt)
    ensures forall c: PlayingCard :: c in dealt
    ensures extra == None && again == None
  {
    var d := new StandardDeck();
    CanonicalDeckDistinctAndComplete();
    dealt := [];
    for i := 0 to 52
      invariant d.Valid()
      invariant d.deck == CanonicalDeck()[i..]
      invariant dealt == CanonicalDeck()[..i]
    {
      var card := d.DealOneCard();
      dealt := dealt + [card.value];
    }
    extra := d.DealOneCard();
    again := d.DealOneCard();
  }

  /**
   * A fresh deck shuffled and then dealt to exhaustion: 52 distinct cards,
   * every pair among them, and then None.
   */
  method ShuffleAndDealWholeDeck() returns (dealt: seq<PlayingCard>, extra: Option<PlayingCard>)
    ensures |dealt| == 52
    ensures multiset(dealt) == multiset(CanonicalDeck())
    ensures Distinct(dealt)
    ensures forall c: PlayingCard :: c in dealt
    ensures extra == None
  {
    var d := new StandardDeck();
    d.Shuffle();
    ghost var shuffled := d.deck;
    dealt := [];
    for i := 0 to 52
      invariant d.Valid()
      invariant d.deck == shuffled[i..]
      invariant dealt == shuffled[..i]
    {
      var card := d.DealOneCard();
      dealt := dealt + [card.value];
    }
    extra := d.DealOneCard();
    assert dealt == shuffled;
    FullDeckPermutation(dealt);
  }
}

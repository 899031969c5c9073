# Standard deck of playing cards, modelled in Dafny

This project models the two classes of the DeckOfCards library:

- `PlayingCard` is an immutable (rank, suit) value. Its constructor rejects a missing rank, then a missing suit. It has accessors, display text `"<Rank> of <Suit>"`, and an `equals` that compares display texts.
- `StandardDeck` is an ordered collection of distinct cards. It is populated with all 52 rank-suit pairs, suit-major (Hearts, Diamonds, Clubs, Spades) and rank-minor (Ace to King). It can be shuffled by repeatedly moving a randomly chosen card from a working copy to the end of a new deck. It is dealt from the front, and dealing from an empty deck returns no card.

Files:

- `Wrappers.dfy`: `Option` stands for a Java `null` result. `Result` stands for a thrown exception.
- `Cards.dfy` (module `Cards`): `PlayingCard.java`, written as a datatype and functions. The constructor is the function `NewCard`. It takes `Option` arguments, where `None` is a `null` argument, and returns a `Result`.
- `Decks.dfy` (module `Decks`): `StandardDeck.java`, written as a class `StandardDeck` whose `deck: seq<PlayingCard>` field is reassigned by its methods. The object invariant `Valid()` says that no card occurs twice. `CanonicalDeck()` is the reference contents of a fresh deck. Two client methods replay the dealing scenarios of the deck tests.

## Model

| member | source | states |
|---|---|---|
| `Cards.SuitOrdinal` | src/main/java/com/taphere/interview/model/PlayingCard.java:33-35 | a suit's ordinal is a position in `Suit.values()` that holds that suit |
| `Cards.RankOrdinal` | src/main/java/com/taphere/interview/model/PlayingCard.java:37-39 | a rank's ordinal is a position in `Rank.values()` that holds that rank |
| `Cards.SuitValues` | src/main/java/com/taphere/interview/model/PlayingCard.java:33-35 | there are exactly 4 suits; every suit is listed, and position i holds the suit of ordinal i, so none is listed twice |
| `Cards.RankValues` | src/main/java/com/taphere/interview/model/PlayingCard.java:37-39 | there are exactly 13 ranks; every rank is listed, and position i holds the rank of ordinal i, so none is listed twice |
| `Cards.NewCard` | src/main/java/com/taphere/interview/model/PlayingCard.java:55-65 | construction succeeds iff both rank and suit are present; a missing rank fails with "Card rank is empty!" even when the suit is also missing; a present rank with a missing suit fails with "Card suit is empty!"; on success the accessors return exactly the arguments |
| `Cards.AccessorsRoundTrip` | src/main/java/com/taphere/interview/model/PlayingCard.java:63-83 | rebuilding a card from its own `getRank`/`getSuit` gives back the same card, and any present rank and suit build a card whose accessors return them |
| `Cards.RankName` | src/main/java/com/taphere/interview/model/PlayingCard.java:37-39 | every rank's display name is non-empty and contains no space |
| `Cards.NamesRoundTrip` | src/main/java/com/taphere/interview/model/PlayingCard.java:33-39 | each rank and suit name reads back as the constant it names, so different constants have different names |
| `Cards.ToStringInjective` | src/main/java/com/taphere/interview/model/PlayingCard.java:93-95 | two cards with the same `"<Rank> of <Suit>"` display text are the same card |
| `Cards.EqualsIffSameRankAndSuit` | src/main/java/com/taphere/interview/model/PlayingCard.java:105-107 | `equals`, which compares display texts, holds iff rank and suit both match |
| `Cards.EqualsIsEquivalence` | src/main/java/com/taphere/interview/model/PlayingCard.java:105-107 | `equals` is reflexive, symmetric and transitive, and a card never equals `null` |
| `Cards.EqualsExamples` | src/test/java/com/taphere/interview/model/PlayingCardTest.java:62-66 | Ace of Spades displays as "Ace of Spades", equals another Ace of Spades, and does not equal the Ten of Diamonds |
| `Decks.CardsOfSuits` | src/main/java/com/taphere/interview/model/StandardDeck.java:53-57 | the nested population loops produce 13 cards per suit |
| `Decks.CardsOfSuitsAt` | src/main/java/com/taphere/interview/model/StandardDeck.java:53-57 | position i of the loops' output holds rank i mod 13 of the (i div 13)-th suit |
| `Decks.CanonicalOrder` | src/main/java/com/taphere/interview/model/StandardDeck.java:50-58 | the fresh deck has 52 cards, and position i holds `Rank.values()[i % 13]` of `Suit.values()[i / 13]`: all Hearts Ace to King, then Diamonds, Clubs, Spades |
| `Decks.CanonicalPositions` | src/main/java/com/taphere/interview/model/StandardDeck.java:53-57 | every card sits at position 13 × suit ordinal + rank ordinal of the fresh deck, and that position names the card held there |
| `Decks.CanonicalDeckDistinctAndComplete` | src/main/java/com/taphere/interview/model/StandardDeck.java:44-58 | the fresh deck holds 52 cards, no card twice, and every rank-suit combination |
| `Decks.DistinctTail` | src/main/java/com/taphere/interview/model/StandardDeck.java:92-97 | after the front card of a duplicate-free deck is dealt, the rest is still duplicate-free and does not contain the dealt card |
| `Decks.DistinctIffNoRepeats` | src/main/java/com/taphere/interview/model/StandardDeck.java:42 | a deck has no duplicates iff every card occurs at most once in its multiset, so the set property survives any reordering |
| `Decks.DistinctAtMost52` | src/main/java/com/taphere/interview/model/StandardDeck.java:26-28 | a duplicate-free collection of cards has at most 52 cards |
| `Decks.FullDeckPermutation` | src/main/java/com/taphere/interview/model/StandardDeck.java:60-79 | any reordering of the fresh deck, such as a shuffled one, again holds 52 distinct cards covering every combination |
| `Decks.RemoveFirst` | src/main/java/com/taphere/interview/model/StandardDeck.java:75 | `List.remove(Object)` leaves the working list with one copy of the card fewer in its multiset, or the same multiset if the card is absent |
| `Decks.RemoveFirstAt` | src/main/java/com/taphere/interview/model/StandardDeck.java:73-75 | removing the randomly selected card by value removes exactly the selected position, because it is the first occurrence; the other cards keep their order |
| `Decks.StandardDeck.constructor` | src/main/java/com/taphere/interview/model/StandardDeck.java:50-58 | the new deck holds exactly the canonical 52 cards in canonical order, with no duplicates; the loops never add a card that is already present |
| `Decks.StandardDeck.Shuffle` | src/main/java/com/taphere/interview/model/StandardDeck.java:65-80 | for any sequence of random indices below the working list's size, the new deck is a permutation of the old one: same size, same multiset, still duplicate-free; an empty deck stays empty; inside the loop, each removal by value is proved to take out exactly the chosen position and keep the other working cards in order |
| `Decks.StandardDeck.DealOneCard` | src/main/java/com/taphere/interview/model/StandardDeck.java:91-103 | a non-empty deck returns its old front card and keeps exactly the old deck without its first element, in order; the dealt card is not among the remaining cards; an empty deck returns no card and stays empty |
| `Decks.StandardDeck.GetDeck` | src/main/java/com/taphere/interview/model/StandardDeck.java:110-112 | returns the current contents, which are duplicate-free and hold at most 52 cards |
| `Decks.DealWholeDeck` | src/test/java/com/taphere/interview/model/StandardDeckTest.java:103-134 | dealing a fresh deck 52 times yields the canonical deck in order, 52 distinct cards covering every combination, and the 53rd and 54th deals return no card |
| `Decks.ShuffleAndDealWholeDeck` | src/test/java/com/taphere/interview/model/StandardDeckTest.java:65-101 | a fresh deck, shuffled and then dealt out, yields 52 distinct cards covering every combination, a permutation of the canonical deck, and then no card |

## Left out

- `java.util.Random` is not modelled. The shuffle picks its index by nondeterministic choice (`:|`) among the indices below the working list's size. Of what `nextInt(bound)` promises, the model keeps only this bound. It leaves out the (approximately) uniform distribution, so it makes no claim that the shuffle is uniform. It also leaves out the exception for a bound that is not positive. That case cannot arise here, because the loop only picks while the working list is non-empty.
- The shuffle test's check that at most five cards stay in place is not modelled. It is a statistical expectation, not a guarantee, and some permutations break it.
- `LinkedHashSet` and `LinkedList` are modelled as plain `seq` values. The `deck` field carries the invariant that no card occurs twice, through `Valid()`. In `Shuffle`, the working copy is tied to the deck by a multiset invariant, and each step derives from it that the working copy holds no card twice. The working copy in `DealOneCard` is a slice of the deck and carries no invariant of its own. `LinkedHashSet.add` is modelled as an append. The constructor and `Shuffle` prove that the card being added is never already present, so this agrees with set insertion. Hashing is not modelled. `PlayingCard` overrides `equals` without `hashCode`, so real hash-based membership goes by object identity. This never matters here, because the deck never adds a card that is equal to one it already holds.
- `GetDeck`: the Java method returns the live internal set, an alias of the deck's state. The model returns a snapshot of the current sequence, so it does not capture later mutation through that alias.
- Thread safety is left out. The class documents it as the caller's responsibility.
- `Cards.Equals`: Java's `equals(Object)` takes any object. The model takes an optional card, where `None` is `null`. An argument of some other class, for which Java returns false, is not modelled.
- Card immutability is not stated as a separate lemma. `PlayingCard` is a Dafny datatype value, so no operation can change its rank or suit.

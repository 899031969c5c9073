/**
 * A poker-style playing card: an immutable (rank, suit) value.
 * Both fields are mandatory; display text is "<Rank> of <Suit>", and two
 * cards are equal exactly when their display texts are.
 */
module Cards {
  import opened Wrappers

  datatype Suit = Hearts | Diamonds | Clubs | Spades

  datatype Rank = Ace | Two | Three | Four | Five | Six | Seven | Eight | Nine | Ten | Jack | Queen | King

  /** The suits in declared order (Java's `Suit.values()`). */
  const AllSuits: seq<Suit> := [Hearts, Diamonds, Clubs, Spades]

  /** The ranks in declared order (Java's `Rank.values()`). */
  const AllRanks: seq<Rank> := [Ace, Two, Three, Four, Five, Six, Seven, Eight, Nine, Ten, Jack, Queen, King]

  /** A card never changes once built: there is no operation that updates a field. */
  datatype PlayingCard = PlayingCard(rank: Rank, suit: Suit)

  /** What the constructor throws: Java's IllegalArgumentException and its message. */
  datatype CardError = IllegalArgument(message: string)

  const RankEmpty: CardError := IllegalArgument("Card rank is empty!")
  const SuitEmpty: CardError := IllegalArgument("Card suit is empty!")

  /** Position of a suit in declaration order (Java's `ordinal()`). */
  function SuitOrdinal(s: Suit): (i: nat)
    ensures i < |AllSuits| && AllSuits[i] == s
  {
    match s
    case Hearts => 0
    case Diamonds => 1
    case Clubs => 2
    case Spades => 3
  }

  /** Position of a rank in declaration order (Java's `ordinal()`). */
  function RankOrdinal(r: Rank): (i: nat)
    ensures i < |AllRanks| && AllRanks[i] == r
  {
    match r
    case Ace => 0
    case Two => 1
    case Three => 2
    case Four => 3
    case Five => 4
    case Six => 5
    case Seven => 6
    case Eight => 7
    case Nine => 8
    case Ten => 9
    case Jack => 10
    case Queen => 11
    case King => 12
  }

  /** There are exactly four suits, each listed once, Hearts first and Spades last. */
  lemma SuitValues()
    ensures |AllSuits| == 4
    ensures forall s: Suit :: s in AllSuits
    ensures forall i :: 0 <= i < |AllSuits| ==> SuitOrdinal(AllSuits[i]) == i
  {
    forall s: Suit ensures s in AllSuits {
      assert AllSuits[SuitOrdinal(s)] == s;
    }
  }

  /** There are exactly thirteen ranks, each listed once, Ace first and King last. */
  lemma RankValues()
    ensures |AllRanks| == 13
    ensures forall r: Rank :: r in AllRanks
    ensures forall i :: 0 <= i < |AllRanks| ==> RankOrdinal(AllRanks[i]) == i
  {
    forall r: Rank ensures r in AllRanks {
      assert AllRanks[RankOrdinal(r)] == r;
    }
  }

  /**
   * The validating constructor: a missing rank is reported first, then a
   * missing suit; otherwise the card holds exactly the given rank and suit.
   */
  function NewCard(rank: Option<Rank>, suit: Option<Suit>): (r: Result<PlayingCard, CardError>)
    ensures r.Success? <==> rank.Some? && suit.Some?
    ensures rank.None? ==> r == Failure(RankEmpty)
    ensures rank.Some? && suit.None? ==> r == Failure(SuitEmpty)
    ensures r.Success? ==> GetRank(r.value) == rank.value && GetSuit(r.value) == suit.value
  {
    if rank.None? then Failure(RankEmpty)
    else if suit.None? then Failure(SuitEmpty)
    else Success(PlayingCard(rank.value, suit.value))
  }

  function GetRank(c: PlayingCard): Rank
  {
    c.rank
  }

  function GetSuit(c: PlayingCard): Suit
  {
    c.suit
  }

  /** Building a card from a card's own accessors gives back that card, and vice versa. */
  lemma AccessorsRoundTrip(c: PlayingCard, rank: Rank, suit: Suit)
    ensures NewCard(Some(GetRank(c)), Some(GetSuit(c))) == Success(c)
    ensures NewCard(Some(rank), Some(suit)).Success?
    ensures GetRank(NewCard(Some(rank), Some(suit)).value) == rank
    ensures GetSuit(NewCard(Some(rank), Some(suit)).value) == suit
  {
  }

  /** Java's enum `toString()`: the constant's declared name. */
  function RankName(r: Rank): (name: string)
    ensures |name| > 0
    ensures forall i :: 0 <= i < |name| ==> name[i] != ' '
  {
    match r
    case Ace => "Ace"
    case Two => "Two"
    case Three => "Three"
    case Four => "Four"
    case Five => "Five"
    case Six => "Six"
    case Seven => "Seven"
    case Eight => "Eight"
    case Nine => "Nine"
    case Ten => "Ten"
    case Jack => "Jack"
    case Queen => "Queen"
    case King => "King"
  }

  /** Java's enum `toString()`: the constant's declared name. */
  function SuitName(s: Suit): string
  {
    match s
    case Hearts => "Hearts"
    case Diamonds => "Diamonds"
    case Clubs => "Clubs"
    case Spades => "Spades"
  }

  /** Left inverse of RankName, used to show that different ranks have different names. */
  function RankFromName(name: string): Option<Rank>
  {
    if name == "Ace" then Some(Ace)
    else if name == "Two" then Some(Two)
    else if name == "Three" then Some(Three)
    else if name == "Four" then Some(Four)
    else if name == "Five" then Some(Five)
    else if name == "Six" then Some(Six)
    else if name == "Seven" then Some(Seven)
    else if name == "Eight" then Some(Eight)
    else if name == "Nine" then Some(Nine)
    else if name == "Ten" then Some(Ten)
    else if name == "Jack" then Some(Jack)
    else if name == "Queen" then Some(Queen)
    else if name == "King" then Some(King)
    else None
  }

  /** Left inverse of SuitName, used to show that different suits have different names. */
  function SuitFromName(name: string): Option<Suit>
  {
    if name == "Hearts" then Some(Hearts)
    else if name == "Diamonds" then Some(Diamonds)
    else if name == "Clubs" then Some(Clubs)
    else if name == "Spades" then Some(Spades)
    else None
  }

  /** Every name reads back as the constant it names, so distinct constants have distinct names. */
  lemma NamesRoundTrip(r: Rank, s: Suit)
    ensures RankFromName(RankName(r)) == Some(r)
    ensures SuitFromName(SuitName(s)) == Some(s)
  {
  }

  /** Display text, e.g. "Ace of Spades". */
  function ToString(c: PlayingCard): string
  {
    RankName(c.rank) + " of " + SuitName(c.suit)
  }

  /** A word without spaces, a space, then anything: the word is recovered from the whole. */
  lemma {:induction false} SplitAtFirstSpace(x: string, y: string, u: string, v: string)
    requires forall i :: 0 <= i < |x| ==> x[i] != ' '
    requires forall i :: 0 <= i < |u| ==> u[i] != ' '
    requires x + [' '] + y == u + [' '] + v
    ensures x == u && y == v
  {
    var t := x + [' '] + y;
    assert t[|x|] == ' ' && t[|u|] == ' ';
    assert x == t[..|x|] == u;
    assert y == t[|x| + 1..] == v;
  }

  /** Different cards never share display text. */
  lemma {:induction false} ToStringInjective(a: PlayingCard, b: PlayingCard)
    requires ToString(a) == ToString(b)
    ensures a == b
  {
    var ra, rb := RankName(a.rank), RankName(b.rank);
    assert ToString(a) == ra + [' '] + ("of " + SuitName(a.suit));
    assert ToString(b) == rb + [' '] + ("of " + SuitName(b.suit));
    SplitAtFirstSpace(ra, "of " + SuitName(a.suit), rb, "of " + SuitName(b.suit));
    assert SuitName(a.suit) == ("of " + SuitName(a.suit))[3..] == SuitName(b.suit);
    NamesRoundTrip(a.rank, a.suit);
    NamesRoundTrip(b.rank, b.suit);
  }

  /**
   * Java's `equals(Object)`: `other` is None for a null reference, which is
   * never equal; otherwise the display texts are compared.
   */
  function Equals(c: PlayingCard, other: Option<PlayingCard>): bool
  {
    other.Some? && ToString(other.value) == ToString(c)
  }

  /** Display-text equality is exactly equality of rank and suit. */
  lemma EqualsIffSameRankAndSuit(a: PlayingCard, b: PlayingCard)
    ensures Equals(a, Some(b)) <==> a.rank == b.rank && a.suit == b.suit
  {
    if Equals(a, Some(b)) {
      ToStringInjective(b, a);
    }
  }

  /** Equality is reflexive, symmetric and transitive, and no card equals null. */
  lemma EqualsIsEquivalence(a: PlayingCard, b: PlayingCard, c: PlayingCard)
    ensures Equals(a, Some(a))
    ensures Equals(a, Some(b)) == Equals(b, Some(a))
    ensures Equals(a, Some(b)) && Equals(b, Some(c)) ==> Equals(a, Some(c))
    ensures !Equals(a, None)
  {
    EqualsIffSameRankAndSuit(a, b);
    EqualsIffSameRankAndSuit(b, c);
    EqualsIffSameRankAndSuit(a, c);
  }

  /** The two cases the card tests check: Ace of Spades equals itself and not Ten of Diamonds. */
  lemma EqualsExamples()
    ensures ToString(PlayingCard(Ace, Spades)) == "Ace of Spades"
    ensures Equals(PlayingCard(Ace, Spades), Some(PlayingCard(Ace, Spades)))
    ensures !Equals(PlayingCard(Ace, Spades), Some(PlayingCard(Ten, Diamonds)))
  {
    EqualsIffSameRankAndSuit(PlayingCard(Ace, Spades), PlayingCard(Ten, Diamonds));
  }
}

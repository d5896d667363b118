/** Deck construction, the Fisher-Yates shuffle and hand scoring. */
module Deck {
  import opened Types

  const RANKS: seq<string> := ["2", "3", "4", "5", "6", "7", "8", "9", "10", "J", "Q", "K", "A"]
  const SUITS: seq<Suit> := [Hearts, Diamonds, Clubs, Spades]

  /** The number of a string of decimal digits (what parseInt gives for the
      numeric ranks). */
  function DigitsValue(s: string): int
  {
    if |s| == 0 then 0 else DigitsValue(s[..|s| - 1]) * 10 + (s[|s| - 1] as int - '0' as int)
  }

  /** Face value for 2..10, 10 for J, Q and K, 11 for A. */
  function RankValue(rank: string): int
  {
    if rank == "J" || rank == "Q" || rank == "K" then 10
    else if rank == "A" then 11
    else DigitsValue(rank)
  }

  lemma RankValues()
    ensures forall k | 0 <= k < 9 :: RankValue(RANKS[k]) == k + 2
    ensures RankValue("J") == 10 && RankValue("Q") == 10 && RankValue("K") == 10
    ensures RankValue("A") == 11
    ensures forall k | 0 <= k < |RANKS| :: 2 <= RankValue(RANKS[k]) <= 11
  {
    assert RANKS[8] == "10";
    assert DigitsValue("10") == DigitsValue("1") * 10 by { assert "10"[..1] == "1"; }
  }

  /** The thirteen cards of one suit, in rank order. */
  function SuitCards(suit: Suit): (cards: seq<Card>)
    ensures |cards| == |RANKS|
  {
    seq(|RANKS|, k requires 0 <= k < |RANKS| => Card(suit, RANKS[k], RankValue(RANKS[k]), false))
  }

  /** The cards of the given suits, suit after suit. */
  function DeckOf(suits: seq<Suit>): seq<Card>
  {
    if |suits| == 0 then [] else DeckOf(suits[..|suits| - 1]) + SuitCards(suits[|suits| - 1])
  }

  /** The deck `createDeck` builds. */
  function StandardDeck(): seq<Card>
  {
    DeckOf(SUITS)
  }

  /** The value createDeck gives a rank: parseInt of the rank, replaced by
      10 for a face card and 11 for an ace. */
  method CardValue(rank: string) returns (value: int)
    ensures value == RankValue(rank)
  {
    value := DigitsValue(rank);
    if rank == "J" || rank == "Q" || rank == "K" {
      value := 10;
    } else if rank == "A" {
      value := 11;
    }
  }

  /** Builds the 52-card deck with two nested loops, appending one card per
      suit and rank. */
  method CreateDeck() returns (deck: seq<Card>)
    ensures deck == StandardDeck()
  {
    deck := [];
    for s := 0 to |SUITS|
      invariant deck == DeckOf(SUITS[..s])
    {
      for k := 0 to |RANKS|
        invariant deck == DeckOf(SUITS[..s]) + SuitCards(SUITS[s])[..k]
      {
        var rank := RANKS[k];
        var value := CardValue(rank);
        deck := deck + [Card(SUITS[s], rank, value, false)];
        SuitCardsNext(SUITS[s], k);
      }
      assert SUITS[..s + 1][..s] == SUITS[..s];
    }
    assert SUITS[..|SUITS|] == SUITS;
  }

  /** One more card of a suit, in rank order. */
  lemma SuitCardsNext(suit: Suit, k: nat)
    requires k < |RANKS|
    ensures SuitCards(suit)[..k + 1] == SuitCards(suit)[..k] + [Card(suit, RANKS[k], RankValue(RANKS[k]), false)]
  {
    assert SuitCards(suit)[..k + 1] == SuitCards(suit)[..k] + [SuitCards(suit)[k]];
  }

  lemma {:induction false} DeckOfAt(suits: seq<Suit>, i: nat)
    requires i < |RANKS| * |suits|
    ensures |DeckOf(suits)| == |RANKS| * |suits|
    ensures DeckOf(suits)[i] == SuitCards(suits[i / 13])[i % 13]
  {
    var n := |suits|;
    var front := suits[..n - 1];
    if i < 13 * (n - 1) {
      DeckOfAt(front, i);
    } else {
      if n > 1 {
        DeckOfAt(front, 0);
      }
      assert |DeckOf(front)| == 13 * (n - 1);
      assert i / 13 == n - 1;
    }
  }

  /** Card i of the deck is rank i % 13 of suit i / 13, at its rank's value. */
  lemma StandardDeckAt(i: nat)
    requires i < 52
    ensures |StandardDeck()| == 52
    ensures StandardDeck()[i] == Card(SUITS[i / 13], RANKS[i % 13], RankValue(RANKS[i % 13]), false)
  {
    DeckOfAt(SUITS, i);
  }

  /** createDeck lays the deck out suit after suit, each suit in rank
      order: card 13 * s + k is rank k of suit s at its rank's value. */
  lemma StandardDeckLayout()
    ensures |StandardDeck()| == 52
    ensures forall s, k | 0 <= s < 4 && 0 <= k < 13 ::
      StandardDeck()[13 * s + k] == Card(SUITS[s], RANKS[k], RankValue(RANKS[k]), false)
  {
    StandardDeckAt(0);
    forall s, k | 0 <= s < 4 && 0 <= k < 13
      ensures StandardDeck()[13 * s + k] == Card(SUITS[s], RANKS[k], RankValue(RANKS[k]), false)
    {
      StandardDeckAt(13 * s + k);
      assert (13 * s + k) / 13 == s && (13 * s + k) % 13 == k;
    }
  }

  /** No two cards of the deck share both suit and rank. */
  lemma StandardDeckDistinct()
    ensures |StandardDeck()| == 52
    ensures forall i, j | 0 <= i < j < 52 ::
      StandardDeck()[i].suit != StandardDeck()[j].suit || StandardDeck()[i].rank != StandardDeck()[j].rank
  {
    StandardDeckAt(0);
    forall i, j | 0 <= i < j < 52
      ensures StandardDeck()[i].suit != StandardDeck()[j].suit || StandardDeck()[i].rank != StandardDeck()[j].rank
    {
      StandardDeckAt(i);
      StandardDeckAt(j);
      if i / 13 == j / 13 {
        RanksDistinct(i % 13, j % 13);
      }
    }
  }

  /** Every card of the deck is visible and worth 2 to 11. */
  lemma StandardDeckValues()
    ensures |StandardDeck()| == 52
    ensures forall i | 0 <= i < 52 :: 2 <= StandardDeck()[i].value <= 11 && !StandardDeck()[i].isHidden
  {
    StandardDeckAt(0);
    RankValues();
    forall i | 0 <= i < 52 ensures 2 <= StandardDeck()[i].value <= 11 && !StandardDeck()[i].isHidden {
      StandardDeckAt(i);
    }
  }

  lemma RanksDistinct(a: nat, b: nat)
    requires a < 13 && b < 13 && a != b
    ensures RANKS[a] != RANKS[b]
  {
  }

  // ---------------------------------------------------------------------
  // Shuffle

  /** `js[i]` is the index the shuffle swaps position i with; the source draws
      it as floor(random * (i + 1)), so it lies in [0, i]. */
  predicate ValidSwaps(js: seq<int>, n: nat)
  {
    |js| == n && forall i | 0 <= i < n :: 0 <= js[i] <= i
  }

  function SwapAt(s: seq<Card>, i: nat, j: nat): (r: seq<Card>)
    requires i < |s| && j < |s|
    ensures |r| == |s|
  {
    s[i := s[j]][j := s[i]]
  }

  /** A swap keeps the cards. */
  lemma SwapAtPermutes(s: seq<Card>, i: nat, j: nat)
    requires i < |s| && j < |s|
    ensures multiset(SwapAt(s, i, j)) == multiset(s)
  {
  }

  /** The shuffle as a function: swap positions i - 1, i - 2, ..., 1 in turn. */
  function FisherYates(s: seq<Card>, js: seq<int>, i: nat): (r: seq<Card>)
    requires i <= |s| && ValidSwaps(js, |s|)
    ensures |r| == |s|
    decreases i
  {
    if i <= 1 then s else FisherYates(SwapAt(s, i - 1, js[i - 1]), js, i - 1)
  }

  /** The standard deck after the shuffle's swaps at positions 51 down to i:
      the shuffle of a fresh deck, unfolded from its last swap. */
  function SwappedFrom(js: seq<int>, i: nat): (r: seq<Card>)
    requires ValidSwaps(js, 52) && 1 <= i <= 52
    ensures |r| == 52
    decreases 52 - i
  {
    StandardDeckAt(0);
    if i == 52 then StandardDeck() else SwapAt(SwappedFrom(js, i + 1), i, js[i])
  }

  /** Finishing the shuffle from position i on gives the same deck as the
      top-down unfolding; at i = 52 this is the shuffle of the fresh deck. */
  lemma {:induction false} FisherYatesSwaps(js: seq<int>, i: nat)
    requires ValidSwaps(js, 52) && 1 <= i <= 52
    ensures FisherYates(SwappedFrom(js, i), js, i) == SwappedFrom(js, 1)
    decreases i
  {
    if i > 1 {
      assert SwapAt(SwappedFrom(js, i), i - 1, js[i - 1]) == SwappedFrom(js, i - 1);
      FisherYatesSwaps(js, i - 1);
    }
  }

  /** The shuffle permutes: the same multiset of cards. */
  lemma {:induction false} FisherYatesPermutes(s: seq<Card>, js: seq<int>, i: nat)
    requires i <= |s| && ValidSwaps(js, |s|)
    ensures multiset(FisherYates(s, js, i)) == multiset(s)
    decreases i
  {
    if i > 1 {
      var t := SwapAt(s, i - 1, js[i - 1]);
      SwapAtPermutes(s, i - 1, js[i - 1]);
      FisherYatesPermutes(t, js, i - 1);
    }
  }

  /** Copies the deck into an array and swaps in place from the last position
      down to position 1; the input sequence is a value and stays as it was. */
  method ShuffleDeck(deck: seq<Card>, js: seq<int>) returns (shuffled: seq<Card>)
    requires ValidSwaps(js, |deck|)
    ensures shuffled == FisherYates(deck, js, |deck|)
    ensures |shuffled| == |deck| && multiset(shuffled) == multiset(deck)
  {
    var newDeck := new Card[|deck|](k requires 0 <= k < |deck| => deck[k]);
    ghost var cur := deck;
    assert newDeck[..] == cur;
    var i := newDeck.Length - 1;
    while i > 0
      invariant newDeck.Length == |deck| == |cur|
      invariant -1 <= i < newDeck.Length
      invariant |deck| > 0 ==> 0 <= i
      invariant newDeck[..] == cur
      invariant FisherYates(cur, js, i + 1) == FisherYates(deck, js, |deck|)
    {
      var j := js[i];
      newDeck[i], newDeck[j] := newDeck[j], newDeck[i];
      cur := SwapAt(cur, i, j);
      i := i - 1;
    }
    shuffled := newDeck[..];
    FisherYatesPermutes(deck, js, |deck|);
  }

  // ---------------------------------------------------------------------
  // Scoring

  /** Sum of the values of the cards that are not hidden. */
  function VisibleSum(hand: seq<Card>): int
  {
    if |hand| == 0 then 0
    else VisibleSum(hand[..|hand| - 1]) + (if hand[|hand| - 1].isHidden then 0 else hand[|hand| - 1].value)
  }

  /** Number of visible cards of rank "A" (an Ace is known by its rank). */
  function AceCount(hand: seq<Card>): nat
  {
    if |hand| == 0 then 0
    else AceCount(hand[..|hand| - 1]) + (if !hand[|hand| - 1].isHidden && hand[|hand| - 1].rank == "A" then 1 else 0)
  }

  /** The fewest 10-point reductions that bring `sum` to 21 or below. */
  function ReductionsNeeded(sum: int): (r: nat)
    ensures sum - 10 * r <= 21
    ensures r > 0 ==> sum - 10 * (r - 1) > 21
  {
    if sum <= 21 then 0 else (sum - 12) / 10
  }

  /** The score of a hand: the visible sum, less 10 for each Ace counted as 1,
      where Aces are counted as 1 only as far as needed to reach 21. */
  function HandScore(hand: seq<Card>): int
  {
    var sum := VisibleSum(hand);
    var needed := ReductionsNeeded(sum);
    sum - 10 * (if AceCount(hand) < needed then AceCount(hand) else needed)
  }

  /** calculateScore: a for-loop summing visible values and counting Aces,
      then a while-loop taking 10 off per Ace while the score exceeds 21. */
  method CalculateScore(hand: seq<Card>) returns (score: int)
    ensures score == HandScore(hand)
  {
    score := 0;
    var aceCount := 0;
    for i := 0 to |hand|
      invariant score == VisibleSum(hand[..i])
      invariant aceCount == AceCount(hand[..i])
    {
      assert hand[..i + 1][..i] == hand[..i];
      var card := hand[i];
      if card.isHidden {
        continue;
      }
      score := score + card.value;
      if card.rank == "A" {
        aceCount := aceCount + 1;
      }
    }
    assert hand[..|hand|] == hand;
    ghost var sum := score;
    ghost var aces := aceCount;
    while score > 21 && aceCount > 0
      invariant 0 <= aceCount <= aces
      invariant score == sum - 10 * (aces - aceCount)
      invariant aces - aceCount <= ReductionsNeeded(sum)
    {
      score := score - 10;
      aceCount := aceCount - 1;
    }
  }

  /** The score is the visible sum less 10 per reduced Ace, with at most as
      many reductions as visible Aces. */
  lemma HandScoreIsReduction(hand: seq<Card>)
    ensures exists k :: 0 <= k <= AceCount(hand) && HandScore(hand) == VisibleSum(hand) - 10 * k
  {
    var needed := ReductionsNeeded(VisibleSum(hand));
    var k := if AceCount(hand) < needed then AceCount(hand) else needed;
    assert HandScore(hand) == VisibleSum(hand) - 10 * k;
  }

  /** Reduction stops at 21: a score above 21 means every Ace was reduced, and
      a hand with a reduced Ace scores above 11. */
  lemma HandScoreStopsAt21(hand: seq<Card>, k: nat)
    requires k <= AceCount(hand) && HandScore(hand) == VisibleSum(hand) - 10 * k
    ensures HandScore(hand) > 21 ==> k == AceCount(hand)
    ensures k > 0 ==> HandScore(hand) > 11
  {
  }

  /** Among the totals the Aces allow, the score is the largest one that does
      not exceed 21, whenever one exists. */
  lemma HandScoreIsBest(hand: seq<Card>, k: nat)
    requires k <= AceCount(hand) && VisibleSum(hand) - 10 * k <= 21
    ensures VisibleSum(hand) - 10 * k <= HandScore(hand) <= 21
  {
  }

  /** A hidden card, wherever it sits in the hand, changes no score. */
  lemma HiddenCardIgnored(a: seq<Card>, c: Card, b: seq<Card>)
    requires c.isHidden
    ensures HandScore(a + [c] + b) == HandScore(a + b)
  {
    HiddenCardCounts(a, c, b);
  }

  /** A hidden card adds nothing to the visible sum or the Ace count. */
  lemma {:induction false} HiddenCardCounts(a: seq<Card>, c: Card, b: seq<Card>)
    requires c.isHidden
    ensures VisibleSum(a + [c] + b) == VisibleSum(a + b)
    ensures AceCount(a + [c] + b) == AceCount(a + b)
    decreases |b|
  {
    if |b| == 0 {
      assert a + [c] + b == a + [c];
      assert a + b == a;
      assert (a + [c])[..|a|] == a;
    } else {
      var b' := b[..|b| - 1];
      HiddenCardCounts(a, c, b');
      assert (a + [c] + b)[..|a + [c] + b| - 1] == a + [c] + b';
      assert (a + b)[..|a + b| - 1] == a + b';
      assert (a + [c] + b)[|a + [c] + b| - 1] == b[|b| - 1];
      assert (a + b)[|a + b| - 1] == b[|b| - 1];
    }
  }

  /** {A, 6} scores 17 and {A, A, 9} scores 21. */
  lemma SoftAceExamples()
    ensures HandScore([Card(Spades, "A", 11, false), Card(Hearts, "6", 6, false)]) == 17
    ensures HandScore([Card(Spades, "A", 11, false), Card(Hearts, "A", 11, false), Card(Clubs, "9", 9, false)]) == 21
  {
    var h1 := [Card(Spades, "A", 11, false), Card(Hearts, "6", 6, false)];
    assert h1[..1][..0] == [];
    assert VisibleSum(h1) == 17;
    var h2 := [Card(Spades, "A", 11, false), Card(Hearts, "A", 11, false), Card(Clubs, "9", 9, false)];
    assert h2[..2][..1][..0] == [];
    assert h2[..2][..1] == [h2[0]];
    assert h2[..2] == [h2[0], h2[1]];
    assert VisibleSum(h2) == 31;
    assert AceCount(h2[..2][..1]) == 1;
    assert AceCount(h2) == 2;
  }

  /** A card valued 11 that is not ranked "A" is never reduced. */
  lemma ElevenWithoutAceRank()
    ensures HandScore([Card(Spades, "K", 11, false), Card(Hearts, "Q", 11, false)]) == 22
  {
    var h := [Card(Spades, "K", 11, false), Card(Hearts, "Q", 11, false)];
    assert h[..1][..0] == [];
    assert h[..1] == [h[0]];
    assert "K"[0] != "A"[0] && "Q"[0] != "A"[0];
    assert VisibleSum(h) == 22;
    assert AceCount(h) == 0;
  }
}

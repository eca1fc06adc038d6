/** The card rules of the game, on values: the state of a pile, whether a card
    may be played on it, the distance score of such a play, and the
    enumeration of every legal (card, pile) pair of a hand. */
module Rules {

  /** Cards are the integers 2..98. */
  const MinCard := 2
  const MaxCard := 98

  /** An ascending pile starts just below the smallest card, a descending one
      just above the largest. */
  const AscendingStart := 1
  const DescendingStart := 99

  /** The size of the back-step that may be played against a pile's direction. */
  const BackStep := 10

  /** The distance reported for a back-step, smaller than every forward distance. */
  const BackStepDistance := -1

  /** What a pile looks like to a player: its direction and its top card. */
  datatype Pile = Pile(goesUp: bool, current: int)

  /** A candidate play: the index of a card in the hand, the index of a pile,
      and the distance score of playing that card there. */
  datatype Move = Move(cardIndex: int, stackIndex: int, distance: int)

  /** The fresh pile of a direction. */
  function InitialPile(goesUp: bool): (p: Pile)
    ensures p.goesUp == goesUp
    ensures goesUp ==> p.current < MinCard
    ensures !goesUp ==> p.current > MaxCard
    ensures forall card :: MinCard <= card <= MaxCard ==> IsValid(p, card)
  {
    Pile(goesUp, if goesUp then AscendingStart else DescendingStart)
  }

  /** The card exactly one back-step behind the pile's top. */
  predicate IsBackStep(p: Pile, card: int)
  {
    if p.goesUp then card == p.current - BackStep else card == p.current + BackStep
  }

  /** The forward rule or the back-step rule admits the card. */
  predicate IsValid(p: Pile, card: int)
  {
    (p.goesUp && (p.current < card || p.current - BackStep == card)) ||
    (!p.goesUp && (p.current > card || p.current + BackStep == card))
  }

  /** The distance score of playing `card` on `p`: the back-step scores
      BackStepDistance, any other play its gap from the top. */
  function Distance(p: Pile, card: int): (d: int)
    ensures IsValid(p, card) ==> (d == BackStepDistance <==> IsBackStep(p, card))
    ensures IsValid(p, card) && !IsBackStep(p, card) ==>
              d >= 1 && d == (if p.goesUp then card - p.current else p.current - card)
  {
    if p.goesUp then
      if p.current - BackStep == card then BackStepDistance else card - p.current
    else
      if p.current + BackStep == card then BackStepDistance else p.current - card
  }

  /** The mirror image of a card value: the card range 2..98 reflected about
      its middle, which also swaps the two start values 1 and 99. */
  function Mirror(v: int): int
  {
    AscendingStart + DescendingStart - v
  }

  /** A pile turned around: the opposite direction, with its top mirrored. */
  function Flip(p: Pile): Pile
  {
    Pile(!p.goesUp, Mirror(p.current))
  }

  /** The descending rules are the ascending ones seen in a mirror: the two
      fresh piles are each other's flips, cards map onto cards, and a card is
      valid on a pile, or a back-step there, exactly when its mirror is so on
      the flipped pile, with the same distance score. */
  lemma MirrorRules(p: Pile, card: int)
    ensures Flip(InitialPile(p.goesUp)) == InitialPile(!p.goesUp)
    ensures MinCard <= card <= MaxCard <==> MinCard <= Mirror(card) <= MaxCard
    ensures IsValid(p, card) <==> IsValid(Flip(p), Mirror(card))
    ensures IsBackStep(p, card) <==> IsBackStep(Flip(p), Mirror(card))
    ensures Distance(p, card) == Distance(Flip(p), Mirror(card))
  {
  }

  /** Among forward plays on one pile, a card farther from the top always
      scores a strictly larger distance. */
  lemma DistanceMonotone(p: Pile, a: int, b: int)
    requires p.goesUp ==> p.current < a < b
    requires !p.goesUp ==> b < a < p.current
    ensures Distance(p, a) < Distance(p, b)
  {
  }

  /** A valid back-step scores strictly less than every other valid play, on
      whatever pile that play is. */
  lemma BackStepFirst(p: Pile, a: int, q: Pile, b: int)
    requires IsValid(p, a) && IsBackStep(p, a)
    requires IsValid(q, b) && !IsBackStep(q, b)
    ensures Distance(p, a) < Distance(q, b)
  {
  }

  /** The moves of one card, index `c`, over the piles in pile order. */
  function CardMoves(c: int, card: int, piles: seq<Pile>): seq<Move>
  {
    if piles == [] then []
    else
      var s := |piles| - 1;
      CardMoves(c, card, piles[..s]) +
        (if IsValid(piles[s], card) then [Move(c, s, Distance(piles[s], card))] else [])
  }

  /** The legal moves of a hand: hand-major, pile-minor. */
  function LegalMoves(hand: seq<int>, piles: seq<Pile>): seq<Move>
  {
    if hand == [] then []
    else
      var c := |hand| - 1;
      LegalMoves(hand[..c], piles) + CardMoves(c, hand[c], piles)
  }

  /** A legal move of a hand describes a valid play with its distance. */
  ghost predicate Describes(hand: seq<int>, piles: seq<Pile>, m: Move)
  {
    0 <= m.cardIndex < |hand| && 0 <= m.stackIndex < |piles| &&
    IsValid(piles[m.stackIndex], hand[m.cardIndex]) &&
    m.distance == Distance(piles[m.stackIndex], hand[m.cardIndex])
  }

  /** `a` comes before `b` in the enumeration order (hand index, then pile index). */
  predicate EnumBefore(a: Move, b: Move)
  {
    a.cardIndex < b.cardIndex || (a.cardIndex == b.cardIndex && a.stackIndex < b.stackIndex)
  }

  /** Every earlier element comes strictly before every later one. */
  ghost predicate EnumOrdered(ms: seq<Move>)
  {
    forall i, j :: 0 <= i < j < |ms| ==> EnumBefore(ms[i], ms[j])
  }

  lemma {:induction false} CardMovesSpec(c: int, card: int, piles: seq<Pile>)
    ensures forall m :: m in CardMoves(c, card, piles) <==>
      m.cardIndex == c && 0 <= m.stackIndex < |piles| &&
      IsValid(piles[m.stackIndex], card) && m.distance == Distance(piles[m.stackIndex], card)
    ensures EnumOrdered(CardMoves(c, card, piles))
  {
    if piles != [] {
      var s := |piles| - 1;
      CardMovesSpec(c, card, piles[..s]);
      assert forall k :: 0 <= k < s ==> piles[..s][k] == piles[k];
    }
  }

  /** Soundness and completeness of the enumeration: a triple is listed iff it
      describes a valid play, and the listing is in hand-major, pile-minor order. */
  lemma {:induction false} LegalMovesSpec(hand: seq<int>, piles: seq<Pile>)
    ensures forall m :: m in LegalMoves(hand, piles) <==> Describes(hand, piles, m)
    ensures EnumOrdered(LegalMoves(hand, piles))
  {
    if hand != [] {
      var c := |hand| - 1;
      var front := hand[..c];
      LegalMovesSpec(front, piles);
      CardMovesSpec(c, hand[c], piles);
      assert forall k :: 0 <= k < c ==> front[k] == hand[k];
      var a, b := LegalMoves(front, piles), CardMoves(c, hand[c], piles);
      forall i, j | 0 <= i < j < |a + b| ensures EnumBefore((a + b)[i], (a + b)[j]) {
        if j >= |a| && i < |a| {
          assert a[i] in a && b[j - |a|] in b;
        }
      }
    }
  }

  /** The hand has no legal move exactly when no card of it is valid on any pile. */
  lemma NoMovesIff(hand: seq<int>, piles: seq<Pile>)
    ensures LegalMoves(hand, piles) == [] <==>
      forall c, s :: 0 <= c < |hand| && 0 <= s < |piles| ==> !IsValid(piles[s], hand[c])
  {
    LegalMovesSpec(hand, piles);
    if LegalMoves(hand, piles) == [] {
      forall c, s | 0 <= c < |hand| && 0 <= s < |piles| ensures !IsValid(piles[s], hand[c]) {
        assert !Describes(hand, piles, Move(c, s, Distance(piles[s], hand[c])));
      }
    } else {
      assert Describes(hand, piles, LegalMoves(hand, piles)[0]);
    }
  }
}

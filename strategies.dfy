/** One player's turn on values: what each strategy plays, how a play
    changes the hand and the piles, and the claims a Priority player makes.
    The classes of module Engine are proved against these functions. */
module Strategies {
  import opened Rules
  import opened Selection

  /** The four kinds of automated player. */
  datatype Strategy = Random | Naive | SleepPriority | Priority

  /** What a player's turn leaves behind. */
  datatype TurnOutcome = TurnOutcome(hand: seq<int>, piles: seq<Pile>, blocked: bool)

  /** Some player other than `p` has flagged the pile whose board row is `row`. */
  predicate OthersFlagged(row: seq<int>, p: int)
  {
    exists i :: 0 <= i < |row| && i != p && row[i] == 1
  }

  /** The piles some player other than `p` has flagged on the priority board. */
  function ClaimedStacks(board: seq<seq<int>>, p: int): set<int>
  {
    set s | 0 <= s < |board| && OthersFlagged(board[s], p)
  }

  /** The hand holds a legal back-step onto pile `s`. */
  ghost predicate WantsBackStep(hand: seq<int>, piles: seq<Pile>, s: int)
  {
    exists m :: m in LegalMoves(hand, piles) && m.stackIndex == s && m.distance == BackStepDistance
  }

  /** A player flags pile `s` exactly when one of its cards is the back-step
      of that pile. */
  lemma WantsBackStepIff(hand: seq<int>, piles: seq<Pile>, s: int)
    requires 0 <= s < |piles|
    ensures WantsBackStep(hand, piles, s) <==>
      exists c :: 0 <= c < |hand| && IsBackStep(piles[s], hand[c])
  {
    LegalMovesSpec(hand, piles);
    if c :| 0 <= c < |hand| && IsBackStep(piles[s], hand[c]) {
      var m := Move(c, s, Distance(piles[s], hand[c]));
      assert Describes(hand, piles, m);
    }
  }

  /** The piles a list of moves plays on. */
  function TargetPiles(ms: seq<Move>): set<int>
  {
    set m | m in ms :: m.stackIndex
  }

  /** The back-steps among the sorted legal moves (main.py:145-146) play on
      exactly the piles the player wants to flag. */
  lemma BackStepTargets(hand: seq<int>, piles: seq<Pile>, s: int)
    ensures s in TargetPiles(BackSteps(SortByDistance(LegalMoves(hand, piles)))) <==>
      WantsBackStep(hand, piles, s)
  {
    var ms := LegalMoves(hand, piles);
    SortSameMoves(ms);
    if WantsBackStep(hand, piles, s) {
      var m :| m in ms && m.stackIndex == s && m.distance == BackStepDistance;
      assert m in BackSteps(SortByDistance(ms));
    }
  }

  /** Python's `hand.pop(i)`: the hand without its i-th card. */
  function RemoveAt(hand: seq<int>, i: int): (r: seq<int>)
    requires 0 <= i < |hand|
    ensures |r| == |hand| - 1
    ensures multiset(r) + multiset{hand[i]} == multiset(hand)
    ensures forall k :: 0 <= k < |r| ==> r[k] == if k < i then hand[k] else hand[k + 1]
  {
    assert hand == hand[..i] + [hand[i]] + hand[i + 1..];
    hand[..i] + hand[i + 1..]
  }

  /** Playing move `m`: its card leaves the hand and becomes the top of its pile. */
  function Apply(hand: seq<int>, piles: seq<Pile>, m: Move): (r: (seq<int>, seq<Pile>))
    requires 0 <= m.cardIndex < |hand| && 0 <= m.stackIndex < |piles|
    ensures r.0 == RemoveAt(hand, m.cardIndex)
    ensures |r.1| == |piles| && r.1[m.stackIndex].current == hand[m.cardIndex]
    ensures forall s :: 0 <= s < |piles| ==> r.1[s].goesUp == piles[s].goesUp
    ensures forall s :: 0 <= s < |piles| && s != m.stackIndex ==> r.1[s] == piles[s]
  {
    (RemoveAt(hand, m.cardIndex),
     piles[m.stackIndex := Pile(piles[m.stackIndex].goesUp, hand[m.cardIndex])])
  }

  /** The move a strategy picks, or None when the hand has no legal move
      (blocked). Random plays the `roll % |moves|`-th legal move. */
  function Choose(strategy: Strategy, hand: seq<int>, piles: seq<Pile>, claimed: set<int>, roll: nat)
    : Option<Move>
  {
    var ms := LegalMoves(hand, piles);
    if ms == [] then None
    else
      match strategy
      case Random => Some(ms[roll % |ms|])
      case Naive => Some(FirstMinimum(ms))
      case SleepPriority => Some(PriorityPick(SortByDistance(ms), claimed))
      case Priority => Some(PriorityPick(SortByDistance(ms), claimed))
  }

  /** Every strategy blocks exactly when the hand has no legal move, and
      otherwise picks one of the legal moves. */
  lemma ChooseSpec(strategy: Strategy, hand: seq<int>, piles: seq<Pile>, claimed: set<int>, roll: nat)
    ensures var r := Choose(strategy, hand, piles, claimed, roll);
      (r.None? <==> LegalMoves(hand, piles) == []) &&
      (r.Some? ==> r.value in LegalMoves(hand, piles) && Describes(hand, piles, r.value))
  {
    if LegalMoves(hand, piles) != [] {
      LegalMovesSpec(hand, piles);
      PriorityChoice(hand, piles, claimed);
      NaiveChoice(hand, piles);
    }
  }

  /** Going from `hand` and `piles` to `hand1` and `piles1` only took cards
      out of the hand, and each pile keeps its direction and either its top
      or shows one of the cards taken; two piles that both changed show two
      cards taken (a card taken once covers one pile only). */
  ghost predicate PlaysOnto(hand: seq<int>, piles: seq<Pile>, hand1: seq<int>, piles1: seq<Pile>)
  {
    multiset(hand1) <= multiset(hand) &&
    |piles1| == |piles| &&
    (forall s :: 0 <= s < |piles| ==> piles1[s].goesUp == piles[s].goesUp) &&
    (forall s :: 0 <= s < |piles| ==>
      piles1[s] == piles[s] || piles1[s].current in PlayedCards(hand, hand1)) &&
    (forall s, t :: 0 <= s < t < |piles| && piles1[s] != piles[s] && piles1[t] != piles[t] ==>
      multiset{piles1[s].current, piles1[t].current} <= PlayedCards(hand, hand1))
  }

  /** Two plays in a row play onto the piles what both took together. */
  lemma PlaysOntoTrans(hand: seq<int>, piles: seq<Pile>, hand1: seq<int>, piles1: seq<Pile>,
                       hand2: seq<int>, piles2: seq<Pile>)
    requires PlaysOnto(hand, piles, hand1, piles1) && PlaysOnto(hand1, piles1, hand2, piles2)
    ensures PlaysOnto(hand, piles, hand2, piles2)
  {
    PlayedAccumulates(hand, hand1, hand2);
    var early, late := PlayedCards(hand, hand1), PlayedCards(hand1, hand2);
    forall s | 0 <= s < |piles| ensures piles2[s] == piles[s] || piles2[s].current in early + late {
      if piles2[s] != piles1[s] {
        assert piles2[s].current in late;
      } else if piles1[s] != piles[s] {
        assert piles1[s].current in early;
      }
    }
    forall s, t | 0 <= s < t < |piles| && piles2[s] != piles[s] && piles2[t] != piles[t]
      ensures multiset{piles2[s].current, piles2[t].current} <= early + late
    {
      TwoTopsTaken(piles[s], piles1[s], piles2[s], piles[t], piles1[t], piles2[t], early, late);
    }
  }

  /** Two piles p and q, each changed by one of two plays (tops p0, p1, p2
      and q0, q1, q2): their final tops are two of the cards both plays took. */
  lemma TwoTopsTaken(p0: Pile, p1: Pile, p2: Pile, q0: Pile, q1: Pile, q2: Pile,
                     early: multiset<int>, late: multiset<int>)
    requires p2 != p0 && q2 != q0
    requires (p2 != p1 ==> p2.current in late) && (p1 != p0 ==> p1.current in early)
    requires (q2 != q1 ==> q2.current in late) && (q1 != q0 ==> q1.current in early)
    requires p2 != p1 && q2 != q1 ==> multiset{p2.current, q2.current} <= late
    requires p1 != p0 && q1 != q0 ==> multiset{p1.current, q1.current} <= early
    ensures multiset{p2.current, q2.current} <= early + late
  {
    var a, b := p2.current, q2.current;
    assert multiset{a, b} == multiset{a} + multiset{b};
    if p2 == p1 && q2 != q1 {
      assert a in early && b in late;
    } else if p2 != p1 && q2 == q1 {
      assert a in late && b in early;
    }
  }

  /** The cards a turn took out of a hand. */
  function PlayedCards(before: seq<int>, after: seq<int>): multiset<int>
  {
    multiset(before) - multiset(after)
  }

  /** The outcome of one play that chose `choice`: blocked when there was
      nothing to choose, otherwise that move applied. */
  function Step(hand: seq<int>, piles: seq<Pile>, choice: Option<Move>): TurnOutcome
    requires choice.Some? ==>
      0 <= choice.value.cardIndex < |hand| && 0 <= choice.value.stackIndex < |piles|
  {
    match choice
    case None => TurnOutcome(hand, piles, true)
    case Some(m) =>
      var r := Apply(hand, piles, m);
      TurnOutcome(r.0, r.1, false)
  }

  /** One play of a strategy: `__play_one_random`, `__play_one_naive` or
      `__play_one_priority`. */
  function OnePlay(strategy: Strategy, hand: seq<int>, piles: seq<Pile>, claimed: set<int>, roll: nat)
    : TurnOutcome
  {
    ChooseSpec(strategy, hand, piles, claimed, roll);
    Step(hand, piles, Choose(strategy, hand, piles, claimed, roll))
  }

  /** A play blocks exactly when the hand has no legal move, and then
      changes nothing. */
  lemma OnePlayBlocks(strategy: Strategy, hand: seq<int>, piles: seq<Pile>, claimed: set<int>, roll: nat)
    ensures var o := OnePlay(strategy, hand, piles, claimed, roll);
      (o.blocked <==> LegalMoves(hand, piles) == []) &&
      (o.blocked ==> o.hand == hand && o.piles == piles)
  {
    ChooseSpec(strategy, hand, piles, claimed, roll);
  }

  /** A chosen move is a valid play of that hand, and the play applies it. */
  lemma OnePlayChosen(strategy: Strategy, hand: seq<int>, piles: seq<Pile>, claimed: set<int>, roll: nat, m: Move)
    requires Choose(strategy, hand, piles, claimed, roll) == Some(m)
    ensures Describes(hand, piles, m)
    ensures OnePlay(strategy, hand, piles, claimed, roll) ==
      TurnOutcome(Apply(hand, piles, m).0, Apply(hand, piles, m).1, false)
  {
    ChooseSpec(strategy, hand, piles, claimed, roll);
  }

  /** A play that does not block moves one card of the hand onto a pile on
      which that card is valid, and changes nothing else. */
  lemma OnePlayMovesOneCard(strategy: Strategy, hand: seq<int>, piles: seq<Pile>, claimed: set<int>, roll: nat)
    ensures var o := OnePlay(strategy, hand, piles, claimed, roll);
      !o.blocked ==>
        exists c, s :: 0 <= c < |hand| && 0 <= s < |piles| && IsValid(piles[s], hand[c]) &&
          o.hand == RemoveAt(hand, c) && o.piles == piles[s := Pile(piles[s].goesUp, hand[c])]
  {
    ChooseSpec(strategy, hand, piles, claimed, roll);
    var choice := Choose(strategy, hand, piles, claimed, roll);
    if choice.Some? {
      var m := choice.value;
      assert OnePlay(strategy, hand, piles, claimed, roll).hand == RemoveAt(hand, m.cardIndex);
    }
  }

  /** What a single play keeps: the hand only loses the card it played,
      and each pile keeps its direction and either its top or shows that card. */
  lemma OnePlayKeeps(strategy: Strategy, hand: seq<int>, piles: seq<Pile>, claimed: set<int>, roll: nat)
    ensures var o := OnePlay(strategy, hand, piles, claimed, roll);
      PlaysOnto(hand, piles, o.hand, o.piles) &&
      |o.hand| == |hand| - (if o.blocked then 0 else 1)
  {
    OnePlayBlocks(strategy, hand, piles, claimed, roll);
    OnePlayMovesOneCard(strategy, hand, piles, claimed, roll);
    var o := OnePlay(strategy, hand, piles, claimed, roll);
    if !o.blocked {
      var c, t :| 0 <= c < |hand| && 0 <= t < |piles| && IsValid(piles[t], hand[c]) &&
        o.hand == RemoveAt(hand, c) && o.piles == piles[t := Pile(piles[t].goesUp, hand[c])];
      CardPlayKeeps(hand, piles, c, t);
    }
  }

  /** Playing card c of the hand on pile t: one card fewer, and only pile t
      changes, to show that card. */
  lemma CardPlayKeeps(hand: seq<int>, piles: seq<Pile>, c: int, t: int)
    requires 0 <= c < |hand| && 0 <= t < |piles|
    ensures var h, ps := RemoveAt(hand, c), piles[t := Pile(piles[t].goesUp, hand[c])];
      |h| == |hand| - 1 && PlayedCards(hand, h) == multiset{hand[c]} && PlaysOnto(hand, piles, h, ps)
  {
    var h, ps := RemoveAt(hand, c), piles[t := Pile(piles[t].goesUp, hand[c])];
    assert PlayedCards(hand, h) == multiset{hand[c]};
    assert forall s :: 0 <= s < |piles| && ps[s] != piles[s] ==> s == t;
  }

  /** One turn (main.py:122-127 and its two siblings): one play, and a second
      one unless `forced` (the deck was empty); after a blocked play the
      turn is over (`blocked or ...`). */
  function PlayTurn(strategy: Strategy, hand: seq<int>, piles: seq<Pile>, claimed: set<int>,
                    forced: bool, roll1: nat, roll2: nat): TurnOutcome
  {
    var first := OnePlay(strategy, hand, piles, claimed, roll1);
    if first.blocked || forced then first
    else OnePlay(strategy, first.hand, first.piles, claimed, roll2)
  }

  /** A turn that blocks leaves a hand with no legal move, having played
      fewer cards than it asked for; a turn that does not block plays exactly
      one card, or two when not `forced`. */
  lemma PlayTurnCounts(strategy: Strategy, hand: seq<int>, piles: seq<Pile>, claimed: set<int>,
                       forced: bool, roll1: nat, roll2: nat)
    ensures var o := PlayTurn(strategy, hand, piles, claimed, forced, roll1, roll2);
      (o.blocked ==> LegalMoves(o.hand, o.piles) == []) &&
      (!o.blocked ==> |o.hand| == |hand| - (if forced then 1 else 2)) &&
      (o.blocked ==> |hand| - |o.hand| < (if forced then 1 else 2))
  {
    OnePlayBlocks(strategy, hand, piles, claimed, roll1);
    OnePlayKeeps(strategy, hand, piles, claimed, roll1);
    var first := OnePlay(strategy, hand, piles, claimed, roll1);
    if !first.blocked && !forced {
      OnePlayBlocks(strategy, first.hand, first.piles, claimed, roll2);
      OnePlayKeeps(strategy, first.hand, first.piles, claimed, roll2);
    }
  }

  /** A turn only takes cards out of the hand, and each pile keeps its
      direction and either its top or shows a card the turn played, no card
      on two piles. */
  lemma PlayTurnKeeps(strategy: Strategy, hand: seq<int>, piles: seq<Pile>, claimed: set<int>,
                      forced: bool, roll1: nat, roll2: nat)
    ensures var o := PlayTurn(strategy, hand, piles, claimed, forced, roll1, roll2);
      PlaysOnto(hand, piles, o.hand, o.piles)
  {
    OnePlayKeeps(strategy, hand, piles, claimed, roll1);
    var first := OnePlay(strategy, hand, piles, claimed, roll1);
    if !first.blocked && !forced {
      OnePlayKeeps(strategy, first.hand, first.piles, claimed, roll2);
      var second := OnePlay(strategy, first.hand, first.piles, claimed, roll2);
      PlaysOntoTrans(hand, piles, first.hand, first.piles, second.hand, second.piles);
    }
  }

  /** The cards two successive plays took are those of both together. */
  lemma PlayedAccumulates(hand: seq<int>, mid: seq<int>, last: seq<int>)
    requires multiset(last) <= multiset(mid) <= multiset(hand)
    ensures multiset(last) <= multiset(hand)
    ensures PlayedCards(hand, mid) + PlayedCards(mid, last) == PlayedCards(hand, last)
  {
  }

  /** The board cell a player sets for pile `s`: 1 when it holds a back-step there. */
  ghost function ClaimCell(hand: seq<int>, piles: seq<Pile>, s: int): int
  {
    if WantsBackStep(hand, piles, s) then 1 else 0
  }

  /** The board once every player has published (what `end_turn_logic` of a
      table of Priority players leaves): row s, column p is player p's claim
      on pile s. */
  ghost function ClaimBoard(hands: seq<seq<int>>, piles: seq<Pile>): seq<seq<int>>
  {
    seq(|piles|, s requires 0 <= s < |piles| =>
      seq(|hands|, p requires 0 <= p < |hands| => ClaimCell(hands[p], piles, s)))
  }

  /** `_ask_priority` on values (main.py:144-150): player `p`'s column is
      rewritten to its current back-step piles; every other cell stays. */
  ghost function Publish(board: seq<seq<int>>, p: int, hand: seq<int>, piles: seq<Pile>)
    : seq<seq<int>>
  {
    seq(|board|, s requires 0 <= s < |board| =>
      if 0 <= p < |board[s]| then board[s][p := ClaimCell(hand, piles, s)] else board[s])
  }

  /** Publishing touches only the publisher's own column, and there it flags
      exactly the piles onto which one of its cards is a back-step. */
  lemma PublishSpec(board: seq<seq<int>>, p: int, hand: seq<int>, piles: seq<Pile>)
    requires |board| == |piles|
    requires forall s :: 0 <= s < |board| ==> 0 <= p < |board[s]|
    ensures |Publish(board, p, hand, piles)| == |board|
    ensures forall s, i :: 0 <= s < |board| && 0 <= i < |board[s]| && i != p ==>
      Publish(board, p, hand, piles)[s][i] == board[s][i]
    ensures forall s :: 0 <= s < |board| ==>
      var row := Publish(board, p, hand, piles)[s];
      |row| == |board[s]| &&
      (row[p] == 1 <==> exists c :: 0 <= c < |hand| && IsBackStep(piles[s], hand[c])) &&
      (row[p] == 0 || row[p] == 1)
  {
    forall s | 0 <= s < |board| {
      WantsBackStepIff(hand, piles, s);
    }
  }
}

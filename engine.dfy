/** The objects of a game and the state they change in place: the piles
    (Stack), the shared priority board (Handler), the players and the game
    that deals and drives the turns. Handler and Player refer to each other
    (the board calls every player's end-of-turn hook), so they share one
    module. */
module Engine {
  import opened Rules
  import opened Selection
  import opened Strategies
  import opened Decks

  /** No object appears twice in the list. */
  ghost predicate Distinct<T>(s: seq<T>)
  {
    forall i, j :: 0 <= i < j < |s| ==> s[i] != s[j]
  }

  /** What the piles look like. */
  function Piles(stacks: seq<Stack>): seq<Pile>
    reads stacks
  {
    seq(|stacks|, i requires 0 <= i < |stacks| reads stacks => stacks[i].State())
  }

  /** The players' hands, in turn order. */
  function Hands(players: seq<Player>): seq<seq<int>>
    reads players
  {
    seq(|players|, i requires 0 <= i < |players| reads players => players[i].cards)
  }

  /** Replacing one element twice keeps only the second replacement. */
  lemma UpdateTwice<T>(s: seq<T>, i: int, a: T, b: T)
    requires 0 <= i < |s|
    ensures s[i := a][i := b] == s[i := b]
  {
  }

  /** The hands `before` after the first |dealt| of them received `dealt`. */
  ghost function WithDealt(before: seq<seq<int>>, dealt: seq<seq<int>>): (r: seq<seq<int>>)
    requires |dealt| <= |before|
    ensures |r| == |before|
    ensures forall j :: 0 <= j < |before| ==> r[j] == before[j] + (if j < |dealt| then dealt[j] else [])
  {
    seq(|before|, j requires 0 <= j < |before| => if j < |dealt| then before[j] + dealt[j] else before[j])
  }

  /** The next hand of a deal receives the next draw. */
  lemma DealtStep(before: seq<seq<int>>, dealt: seq<seq<int>>, drawn: seq<int>)
    requires |dealt| < |before|
    ensures WithDealt(before, dealt)[|dealt| := before[|dealt|] + drawn] == WithDealt(before, dealt + [drawn])
  {
  }

  /** Every card is accounted for: deck and hands hold each card of the
      card set at most once and nothing else, every pile shows its start
      value or a card that was played, and no played card shows on two piles. */
  ghost predicate CardsAccounted(deck: seq<int>, hands: seq<seq<int>>, piles: seq<Pile>)
  {
    multiset(deck) + HandsMultiset(hands) <= multiset(FullDeck()) &&
    (forall s :: 0 <= s < |piles| ==>
      piles[s] == InitialPile(piles[s].goesUp) || piles[s].current in Played(deck, hands)) &&
    (forall s, t :: 0 <= s < t < |piles| && piles[s].current in Played(deck, hands) ==>
      piles[s].current != piles[t].current)
  }

  /** Where every card is accounted for, no card is in two places: deck and
      hands hold each card at most once, and no pile shows a card that is
      still in the deck or a hand, nor one that another pile shows. */
  lemma NoCardTwice(deck: seq<int>, hands: seq<seq<int>>, piles: seq<Pile>)
    requires CardsAccounted(deck, hands, piles)
    ensures forall x :: (multiset(deck) + HandsMultiset(hands))[x] <= 1
    ensures forall s :: 0 <= s < |piles| ==> piles[s].current !in multiset(deck) + HandsMultiset(hands)
    ensures forall s, t :: 0 <= s < t < |piles| && piles[s] != InitialPile(piles[s].goesUp) ==>
      piles[s].current != piles[t].current
  {
    forall x ensures (multiset(deck) + HandsMultiset(hands))[x] <= 1 {
      FullDeckOnce(x);
    }
    forall s | 0 <= s < |piles| ensures piles[s].current !in multiset(deck) + HandsMultiset(hands) {
      if piles[s].current in Played(deck, hands) {
        PlayedOnce(deck, hands, piles[s].current);
      } else {
        FullDeckOnce(piles[s].current);
      }
    }
  }

  /** After the deal of a shuffled deck onto fresh piles every card is in the
      deck or a hand, and none has been played. */
  lemma DealAccounted(shuffled: seq<int>, size: nat, nPlayers: nat, piles: seq<Pile>)
    requires IsShuffle(shuffled)
    requires forall s :: 0 <= s < |piles| ==> piles[s] == InitialPile(piles[s].goesUp)
    ensures CardsAccounted(Deal(shuffled, size, nPlayers).1, Deal(shuffled, size, nPlayers).0, piles)
    ensures Played(Deal(shuffled, size, nPlayers).1, Deal(shuffled, size, nPlayers).0) == multiset{}
  {
    var dealt := Deal(shuffled, size, nPlayers);
    DealConserves(shuffled, size, nPlayers);
    assert multiset(dealt.1) + HandsMultiset(dealt.0) == multiset(FullDeck());
  }

  /** A play that takes cards out of hand i and puts some of them on the
      piles keeps every card accounted for. */
  lemma PlayAccounted(deck: seq<int>, hands: seq<seq<int>>, piles: seq<Pile>, i: int, h: seq<int>,
                      after: seq<Pile>)
    requires CardsAccounted(deck, hands, piles)
    requires 0 <= i < |hands| && PlaysOnto(hands[i], piles, h, after)
    ensures CardsAccounted(deck, hands[i := h], after)
    ensures HandsSize(hands[i := h]) + |hands[i]| == HandsSize(hands) + |h|
  {
    PlayIntoDiscard(deck, hands, i, h);
    var before, now, taken := Played(deck, hands), Played(deck, hands[i := h]), PlayedCards(hands[i], h);
    forall s | 0 <= s < |after| ensures after[s] == InitialPile(after[s].goesUp) || after[s].current in now {
      if after[s] == piles[s] {
        assert piles[s] == InitialPile(piles[s].goesUp) || piles[s].current in before;
      }
    }
    forall s, t | 0 <= s < t < |after| && after[s].current in now
      ensures after[s].current != after[t].current
    {
      PlayedTopsApart(deck, hands, piles, i, h, after, s, t);
    }
  }

  /** The case analysis behind PlayAccounted: a pile that kept its top shows
      a card played before, a pile that changed shows a card just taken from
      the hand, and no card was taken twice. */
  lemma PlayedTopsApart(deck: seq<int>, hands: seq<seq<int>>, piles: seq<Pile>, i: int, h: seq<int>,
                        after: seq<Pile>, s: int, t: int)
    requires CardsAccounted(deck, hands, piles)
    requires 0 <= i < |hands| && PlaysOnto(hands[i], piles, h, after)
    requires 0 <= s < t < |after| && after[s].current in Played(deck, hands[i := h])
    ensures after[s].current != after[t].current
  {
    PlayIntoDiscard(deck, hands, i, h);
    var before, now, taken := Played(deck, hands), Played(deck, hands[i := h]), PlayedCards(hands[i], h);
    var a, b := after[s].current, after[t].current;
    PlayedOnce(deck, hands[i := h], a);
    if after[t] == piles[t] && piles[t] == InitialPile(piles[t].goesUp) {
      // b is a start value, never a card
    } else if after[s] == piles[s] && after[t] == piles[t] {
      assert a in before;
    } else if after[s] != piles[s] && after[t] != piles[t] {
      assert multiset{a, b} <= now;  // and `now` holds a only once
    } else if after[s] == piles[s] {
      assert a in before;
      assert b in taken;
      HeldNotPlayed(deck, hands, i, b);
    } else {
      assert b in before;
      assert a in taken;
      HeldNotPlayed(deck, hands, i, a);
    }
  }

  /** Drawing into hand i moves cards from the deck to that hand: the played
      cards stay the same, so every card stays accounted for. */
  lemma DrawAccounted(deck: seq<int>, hands: seq<seq<int>>, piles: seq<Pile>, i: int, n: nat)
    requires CardsAccounted(deck, hands, piles) && 0 <= i < |hands|
    ensures CardsAccounted(DrawSplit(deck, n).1, hands[i := hands[i] + DrawSplit(deck, n).0], piles)
    ensures |DrawSplit(deck, n).1| + HandsSize(hands[i := hands[i] + DrawSplit(deck, n).0])
         == |deck| + HandsSize(hands)
  {
    DrawIntoHand(hands, i, deck, n);
    var r := DrawSplit(deck, n);
    assert Played(r.1, hands[i := hands[i] + r.0]) == Played(deck, hands);
  }

  /** One of the four piles (main.py:183-211). */
  class Stack {
    const goesUp: bool
    var current: int

    constructor (goesUp: bool)
      ensures State() == InitialPile(goesUp)
    {
      this.goesUp := goesUp;
      current := if goesUp then AscendingStart else DescendingStart;
    }

    /** `get_state`: the top and the direction. */
    function State(): Pile
      reads this
    {
      Pile(goesUp, current)
    }

    /** `add` (main.py:188-191): a guarded mutation. The source raises when the
        card is not valid; here `ok` is then false and the pile is unchanged. */
    method Add(card: int) returns (ok: bool)
      modifies this`current
      ensures ok == IsValid(old(State()), card)
      ensures State() == if ok then Pile(goesUp, card) else old(State())
    {
      ok := IsValid(State(), card);
      if ok {
        current := card;
      }
    }
  }

  /** The priority board (main.py:214-240): `priority[s][p]` is 1 when player
      `p` has flagged a back-step onto pile `s`. */
  class Handler {
    const nPlayers: nat
    const stacks: seq<Stack>
    var priority: seq<seq<int>>
    var players: seq<Player>

    /** One row per pile, one 0/1 cell per player. */
    ghost predicate Valid()
      reads this
    {
      |priority| == |stacks| &&
      forall s :: 0 <= s < |priority| ==>
        |priority[s]| == nPlayers &&
        forall p :: 0 <= p < nPlayers ==> priority[s][p] == 0 || priority[s][p] == 1
    }

    constructor (nPlayers: nat, stacks: seq<Stack>)
      ensures this.nPlayers == nPlayers && this.stacks == stacks && players == []
      ensures Valid()
      ensures forall s, p :: 0 <= s < |stacks| && 0 <= p < nPlayers ==> priority[s][p] == 0
    {
      this.nPlayers := nPlayers;
      this.stacks := stacks;
      priority := seq(|stacks|, _ => seq(nPlayers, _ => 0));
      players := [];
    }

    /** `set_players`. */
    method SetPlayers(players: seq<Player>)
      modifies this`players
      ensures this.players == players
    {
      this.players := players;
    }

    /** `ask_priority` (main.py:224-225): sets cell [toReserve][playerId] and no other. */
    method AskPriority(toReserve: int, playerId: int)
      requires Valid() && 0 <= toReserve < |priority| && 0 <= playerId < nPlayers
      modifies this`priority
      ensures Valid()
      ensures priority == old(priority)[toReserve := old(priority)[toReserve][playerId := 1]]
    {
      priority := priority[toReserve := priority[toReserve][playerId := 1]];
    }

    /** `clean_old_priorities` (main.py:227-229): zeroes column `playerId` in
        every row and leaves every other column as it was. */
    method CleanOldPriorities(playerId: int)
      requires Valid() && 0 <= playerId < nPlayers
      modifies this`priority
      ensures Valid() && |priority| == |old(priority)|
      ensures forall s :: 0 <= s < |priority| ==> priority[s] == old(priority)[s][playerId := 0]
    {
      var s := 0;
      while s < |priority|
        invariant 0 <= s <= |priority| == |old(priority)|
        invariant forall k :: 0 <= k < s ==> priority[k] == old(priority)[k][playerId := 0]
        invariant forall k :: s <= k < |priority| ==> priority[k] == old(priority)[k]
      {
        priority := priority[s := priority[s][playerId := 0]];
        s := s + 1;
      }
    }

    /** `check_asked_priority` (main.py:231-236): whether some player other
        than `playerId` has flagged pile `stackN`. */
    method CheckAskedPriority(stackN: int, playerId: int) returns (r: bool)
      requires 0 <= stackN < |priority|
      ensures r <==> exists i :: 0 <= i < |priority[stackN]| && i != playerId && priority[stackN][i] == 1
      ensures r <==> stackN in ClaimedStacks(priority, playerId)
    {
      var row := priority[stackN];
      var i := 0;
      while i < |row|
        invariant 0 <= i <= |row|
        invariant forall k :: 0 <= k < i ==> k == playerId || row[k] != 1
      {
        if i != playerId && row[i] == 1 {
          return true;
        }
        i := i + 1;
      }
      return false;
    }

    /** `end_turn_logic` (main.py:238-240): every player's round-level hook,
        in turn order. Only Priority players publish there, each into its own
        column. */
    method EndTurnLogic()
      requires Valid() && |players| <= nPlayers
      requires forall j :: 0 <= j < |players| ==> players[j].handler == this && players[j].id == j
      modifies this`priority
      ensures Valid() && |priority| == |old(priority)|
      ensures forall s, p :: 0 <= s < |priority| && 0 <= p < nPlayers ==>
        priority[s][p] ==
          if p < |players| && players[p].strategy == Priority
          then ClaimCell(players[p].cards, Piles(stacks), s)
          else old(priority)[s][p]
    {
      var j := 0;
      while j < |players|
        invariant 0 <= j <= |players|
        invariant Valid() && |priority| == |old(priority)|
        invariant forall s, p :: 0 <= s < |priority| && 0 <= p < nPlayers ==>
          priority[s][p] ==
            if p < j && players[p].strategy == Priority
            then ClaimCell(players[p].cards, Piles(stacks), s)
            else old(priority)[s][p]
      {
        players[j].EndTurnLogic(stacks);
        j := j + 1;
      }
    }
  }

  /** A player (main.py:32-180); `strategy` stands for its subclass. */
  class Player {
    const handler: Handler
    const id: nat
    const strategy: Strategy
    var cards: seq<int>

    constructor (handler: Handler, id: nat, strategy: Strategy)
      ensures this.handler == handler && this.id == id && this.strategy == strategy
      ensures cards == []
    {
      this.handler := handler;
      this.id := id;
      this.strategy := strategy;
      cards := [];
    }

    /** The player's view of the board is usable: its column exists and the
        board has a row for each of the piles it plays on. */
    ghost predicate SeesBoard(stacks: seq<Stack>)
      reads this, handler
    {
      handler.Valid() && id < handler.nPlayers && |stacks| == |handler.priority|
    }

    /** `draw` (main.py:38-39): the drawn cards go to the end of the hand. */
    method Draw(drawn: seq<int>)
      modifies this`cards
      ensures cards == old(cards) + drawn
    {
      cards := cards + drawn;
    }

    /** `_get_legal_moves` (main.py:41-47): hand-major, pile-minor. */
    method GetLegalMoves(stacks: seq<Stack>) returns (moves: seq<Move>)
      ensures moves == LegalMoves(cards, Piles(stacks))
    {
      ghost var piles := Piles(stacks);
      moves := [];
      var c := 0;
      while c < |cards|
        invariant 0 <= c <= |cards|
        invariant moves == LegalMoves(cards[..c], piles)
      {
        var card := cards[c];
        var s := 0;
        while s < |stacks|
          invariant 0 <= s <= |stacks|
          invariant moves == LegalMoves(cards[..c], piles) + CardMoves(c, card, piles[..s])
        {
          var pile := stacks[s].State();
          if IsValid(pile, card) {
            moves := moves + [Move(c, s, Distance(pile, card))];
          }
          assert piles[..s + 1][..s] == piles[..s];
          s := s + 1;
        }
        assert piles[..s] == piles;
        assert cards[..c + 1][..c] == cards[..c];
        c := c + 1;
      }
      assert cards[..c] == cards;
    }

    /** `stacks[m[1]].add(self.cards.pop(m[0]))`: the card leaves the hand and
        becomes the top of the pile; it never raises for a legal move. */
    method PlayMove(stacks: seq<Stack>, m: Move)
      requires Distinct(stacks) && Describes(cards, Piles(stacks), m)
      modifies this`cards, stacks`current
      ensures (cards, Piles(stacks)) == Apply(old(cards), old(Piles(stacks)), m)
    {
      var card := cards[m.cardIndex];
      cards := RemoveAt(cards, m.cardIndex);
      var ok := stacks[m.stackIndex].Add(card);
      assert ok;
      ghost var expected := old(Piles(stacks))[m.stackIndex := Pile(stacks[m.stackIndex].goesUp, card)];
      forall s | 0 <= s < |stacks| ensures Piles(stacks)[s] == expected[s] {
        if s != m.stackIndex {
          assert stacks[s] != stacks[m.stackIndex];
        }
      }
      assert Piles(stacks) == expected;
    }

    /** `__play_one_random` (main.py:73-81); `randrange(len(moves))` is
        `roll % |moves|`. */
    method PlayOneRandom(stacks: seq<Stack>, roll: nat) returns (blocked: bool)
      requires Distinct(stacks)
      modifies this`cards, stacks`current
      ensures TurnOutcome(cards, Piles(stacks), blocked) ==
        OnePlay(Random, old(cards), old(Piles(stacks)), {}, roll)
    {
      var moves := GetLegalMoves(stacks);
      if |moves| == 0 {
        return true;
      }
      LegalMovesSpec(cards, Piles(stacks));
      var index := roll % |moves|;
      PlayMove(stacks, moves[index]);
      return false;
    }

    /** `__play_one_naive` (main.py:101-109): the first move of minimum distance. */
    method PlayOneNaive(stacks: seq<Stack>) returns (blocked: bool)
      requires Distinct(stacks)
      modifies this`cards, stacks`current
      ensures TurnOutcome(cards, Piles(stacks), blocked) ==
        OnePlay(Naive, old(cards), old(Piles(stacks)), {}, 0)
    {
      var moves := GetLegalMoves(stacks);
      if |moves| == 0 {
        return true;
      }
      LegalMovesSpec(cards, Piles(stacks));
      var minMove := FirstMinimum(moves);
      FirstMinimumSpec(moves);
      PlayMove(stacks, minMove);
      return false;
    }

    /** The move `__play_one_priority` plays (main.py:133-141) from a
        non-empty list of legal moves: the best sorted move if it is a
        back-step, else the first sorted move on a pile no other player has
        claimed, else the best sorted move. */
    method PriorityMove(moves: seq<Move>) returns (move: Move)
      requires moves != [] && handler.Valid()
      requires forall m :: m in moves ==> 0 <= m.stackIndex < |handler.priority|
      ensures move == PriorityPick(SortByDistance(moves), ClaimedStacks(handler.priority, id))
    {
      ghost var claimed := ClaimedStacks(handler.priority, id);
      var sorted := SortByDistance(moves);
      SortSameMoves(moves);
      if sorted[0].distance == BackStepDistance {
        return sorted[0];
      }
      var k := 0;
      while k < |sorted|
        invariant 0 <= k <= |sorted|
        invariant forall j :: 0 <= j < k ==> sorted[j].stackIndex in claimed
      {
        assert sorted[k] in moves;
        var taken := handler.CheckAskedPriority(sorted[k].stackIndex, id);
        if !taken {
          FirstUnclaimedAt(sorted, claimed, k);
          return sorted[k];
        }
        k := k + 1;
      }
      FirstUnclaimedSpec(sorted, claimed);
      return sorted[0];
    }

    /** `__play_one_priority` (main.py:129-142). */
    method PlayOnePriority(stacks: seq<Stack>) returns (blocked: bool)
      requires Distinct(stacks) && SeesBoard(stacks)
      requires strategy == SleepPriority || strategy == Priority
      modifies this`cards, stacks`current
      ensures TurnOutcome(cards, Piles(stacks), blocked) ==
        OnePlay(strategy, old(cards), old(Piles(stacks)), old(ClaimedStacks(handler.priority, id)), 0)
    {
      ghost var hand, piles := cards, Piles(stacks);
      ghost var claimed := ClaimedStacks(handler.priority, id);
      var moves := GetLegalMoves(stacks);
      if |moves| == 0 {
        return true;
      }
      LegalMovesSpec(hand, piles);
      var move := PriorityMove(moves);
      assert Choose(strategy, hand, piles, claimed, 0) == Some(move);
      OnePlayChosen(strategy, hand, piles, claimed, 0, move);
      PlayMove(stacks, move);
      assert (cards, Piles(stacks)) == Apply(hand, piles, move);
      return false;
    }

    /** One play of this player's strategy. */
    method PlayOne(stacks: seq<Stack>, roll: nat) returns (blocked: bool)
      requires Distinct(stacks) && SeesBoard(stacks)
      modifies this`cards, stacks`current
      ensures TurnOutcome(cards, Piles(stacks), blocked) ==
        OnePlay(strategy, old(cards), old(Piles(stacks)), old(ClaimedStacks(handler.priority, id)), roll)
    {
      match strategy
      case Random => blocked := PlayOneRandom(stacks, roll);
      case Naive => blocked := PlayOneNaive(stacks);
      case SleepPriority => blocked := PlayOnePriority(stacks);
      case Priority => blocked := PlayOnePriority(stacks);
    }

    /** `play` (main.py:66-71, 94-99, 122-127): one play, and a second one
        unless `forcedOneCard`; reports the count the turn asks for (1 or 2),
        whether or not the turn blocked. */
    method Play(stacks: seq<Stack>, forcedOneCard: bool, roll1: nat, roll2: nat)
      returns (nPlayedCards: nat, blocked: bool)
      requires Distinct(stacks) && SeesBoard(stacks)
      modifies this`cards, stacks`current
      ensures nPlayedCards == if forcedOneCard then 1 else 2
      ensures TurnOutcome(cards, Piles(stacks), blocked) ==
        PlayTurn(strategy, old(cards), old(Piles(stacks)), old(ClaimedStacks(handler.priority, id)),
                 forcedOneCard, roll1, roll2)
      ensures PlaysOnto(old(cards), old(Piles(stacks)), cards, Piles(stacks))
      ensures blocked ==> LegalMoves(cards, Piles(stacks)) == []
      ensures !blocked ==> |cards| + nPlayedCards == old(|cards|)
      ensures |cards| <= old(|cards|)
    {
      ghost var hand0, piles0 := cards, Piles(stacks);
      ghost var claimed := ClaimedStacks(handler.priority, id);
      PlayTurnKeeps(strategy, hand0, piles0, claimed, forcedOneCard, roll1, roll2);
      PlayTurnCounts(strategy, hand0, piles0, claimed, forcedOneCard, roll1, roll2);
      blocked := PlayOne(stacks, roll1);
      if !forcedOneCard && !blocked {
        blocked := PlayOne(stacks, roll2);
      }
      nPlayedCards := if forcedOneCard then 1 else 2;
    }

    /** `_ask_priority` (main.py:144-152): clear this player's column, then
        flag every pile onto which it holds a back-step. */
    method AskPriority(stacks: seq<Stack>)
      requires SeesBoard(stacks)
      modifies handler`priority
      ensures handler.Valid()
      ensures handler.priority == Publish(old(handler.priority), id, cards, Piles(stacks))
    {
      handler.CleanOldPriorities(id);
      var moves := GetLegalMoves(stacks);
      LegalMovesSpec(cards, Piles(stacks));
      var sorted := SortByDistance(moves);
      SortSameMoves(moves);
      var priorityMoves := BackSteps(sorted);
      FlagPiles(priorityMoves);
      ghost var after := Publish(old(handler.priority), id, cards, Piles(stacks));
      forall s | 0 <= s < |stacks| ensures handler.priority[s] == after[s] {
        BackStepTargets(cards, Piles(stacks), s);
      }
    }

    /** The loop of `_ask_priority` (main.py:147-148): flags, in the
        player's column, every pile that one of `ms` plays on. */
    method FlagPiles(ms: seq<Move>)
      requires handler.Valid() && id < handler.nPlayers
      requires forall m :: m in ms ==> 0 <= m.stackIndex < |handler.priority|
      modifies handler`priority
      ensures handler.Valid() && |handler.priority| == old(|handler.priority|)
      ensures forall s :: 0 <= s < |handler.priority| ==>
        handler.priority[s] ==
          old(handler.priority)[s][id := if s in TargetPiles(ms) then 1 else old(handler.priority)[s][id]]
    {
      var k := 0;
      while k < |ms|
        invariant 0 <= k <= |ms|
        invariant handler.Valid() && |handler.priority| == old(|handler.priority|)
        invariant forall s :: 0 <= s < |handler.priority| ==>
          handler.priority[s] ==
            old(handler.priority)[s][id := if s in TargetPiles(ms[..k]) then 1 else old(handler.priority)[s][id]]
      {
        assert TargetPiles(ms[..k + 1]) == TargetPiles(ms[..k]) + {ms[k].stackIndex} by {
          assert ms[..k + 1] == ms[..k] + [ms[k]];
        }
        handler.AskPriority(ms[k].stackIndex, id);
        k := k + 1;
      }
      assert ms[..k] == ms;
    }

    /** `end_turn_logic`: only a Priority player publishes here. */
    method EndTurnLogic(stacks: seq<Stack>)
      requires SeesBoard(stacks)
      modifies handler`priority
      ensures handler.Valid()
      ensures handler.priority ==
        if strategy == Priority then Publish(old(handler.priority), id, cards, Piles(stacks))
        else old(handler.priority)
    {
      if strategy == Priority {
        AskPriority(stacks);
      }
    }

    /** `personal_end_turn_logic`: only a SleepPriority player publishes here. */
    method PersonalEndTurnLogic(stacks: seq<Stack>)
      requires SeesBoard(stacks)
      modifies handler`priority
      ensures handler.Valid()
      ensures handler.priority ==
        if strategy == SleepPriority then Publish(old(handler.priority), id, cards, Piles(stacks))
        else old(handler.priority)
    {
      if strategy == SleepPriority {
        AskPriority(stacks);
      }
    }
  }

  /** A game (main.py:249-305): four piles, the deck, the board and the
      players, all playing `strategy`. */
  class Game {
    const strategy: Strategy
    var stacks: seq<Stack>
    var deck: Deck
    var cardsPerPlayer: nat
    var handler: Handler
    var players: seq<Player>

    /** The game invariant: the objects are wired as `__initialize_game`
        wires them, and every card is accounted for. */
    ghost predicate Valid()
      reads this, deck, handler, stacks, players
    {
      Wired() && CardsAccounted(deck.deck, Hands(players), Piles(stacks))
    }

    /** Two ascending then two descending piles, the board shared by the
        players and sized for them, player i with id i and the game's
        strategy. */
    ghost predicate Wired()
      reads this, handler
    {
      |stacks| == 4 && Distinct(stacks) &&
      stacks[0].goesUp && stacks[1].goesUp && !stacks[2].goesUp && !stacks[3].goesUp &&
      handler.stacks == stacks && handler.players == players &&
      handler.nPlayers == |players| && handler.Valid() &&
      forall i :: 0 <= i < |players| ==>
        players[i].handler == handler && players[i].id == i && players[i].strategy == strategy
    }

    /** The cards not yet played: the deck and every hand (the result of a game). */
    function Remaining(): nat
      reads this, deck, players
    {
      |deck.deck| + HandsSize(Hands(players))
    }

    /** `Game(n_players)` with the strategy that PLAYER_TYPE selects and the
        shuffled deck order given. */
    constructor (nPlayers: nat, strategy: Strategy, shuffled: seq<int>)
      requires IsShuffle(shuffled)
      ensures this.strategy == strategy
      ensures Valid() && |players| == nPlayers && cardsPerPlayer == CardsPerPlayer(nPlayers)
      ensures Piles(stacks) == [InitialPile(true), InitialPile(true), InitialPile(false), InitialPile(false)]
      ensures Hands(players) == Deal(shuffled, cardsPerPlayer, nPlayers).0
      ensures deck.deck == Deal(shuffled, cardsPerPlayer, nPlayers).1
      ensures Played(deck.deck, Hands(players)) == multiset{}
      ensures forall s, p :: 0 <= s < 4 && 0 <= p < nPlayers ==> handler.priority[s][p] == 0
    {
      this.strategy := strategy;
      stacks := [];
      deck := new Deck(shuffled);
      cardsPerPlayer := 0;
      handler := new Handler(0, []);
      players := [];
      new;
      InitializeGame(nPlayers, shuffled);
    }

    /** `reset` (main.py:259-260): a fresh game with the same strategy. */
    method Reset(nPlayers: nat, shuffled: seq<int>)
      requires IsShuffle(shuffled)
      modifies this
      ensures Valid() && |players| == nPlayers && cardsPerPlayer == CardsPerPlayer(nPlayers)
      ensures Piles(stacks) == [InitialPile(true), InitialPile(true), InitialPile(false), InitialPile(false)]
      ensures Hands(players) == Deal(shuffled, cardsPerPlayer, nPlayers).0
      ensures deck.deck == Deal(shuffled, cardsPerPlayer, nPlayers).1
      ensures Played(deck.deck, Hands(players)) == multiset{}
      ensures forall s, p :: 0 <= s < 4 && 0 <= p < nPlayers ==> handler.priority[s][p] == 0
    {
      InitializeGame(nPlayers, shuffled);
    }

    /** `__initialize_game` (main.py:262-278): new piles, deck and board, the
        players, then the deal. */
    method InitializeGame(nPlayers: nat, shuffled: seq<int>)
      requires IsShuffle(shuffled)
      modifies this
      ensures Valid() && |players| == nPlayers && cardsPerPlayer == CardsPerPlayer(nPlayers)
      ensures Piles(stacks) == [InitialPile(true), InitialPile(true), InitialPile(false), InitialPile(false)]
      ensures Hands(players) == Deal(shuffled, cardsPerPlayer, nPlayers).0
      ensures deck.deck == Deal(shuffled, cardsPerPlayer, nPlayers).1
      ensures Played(deck.deck, Hands(players)) == multiset{}
      ensures forall s, p :: 0 <= s < 4 && 0 <= p < nPlayers ==> handler.priority[s][p] == 0
    {
      SetUp(nPlayers, shuffled);
      ghost var dealt := Deal(shuffled, cardsPerPlayer, nPlayers);
      ghost var piles := Piles(stacks);
      ghost var board := handler.priority;
      assert Wired();
      DistributeCards();
      assert Wired() && handler.priority == board && Piles(stacks) == piles;
      assert deck.deck == dealt.1;
      forall j | 0 <= j < nPlayers ensures Hands(players)[j] == dealt.0[j] {
        assert players[j].cards == [] + dealt.0[j];
      }
      assert Hands(players) == dealt.0;
      DealAccounted(shuffled, cardsPerPlayer, nPlayers, piles);
    }

    /** The first half of `__initialize_game`: every object of the game, and no card dealt yet. */
    method SetUp(nPlayers: nat, shuffled: seq<int>)
      requires IsShuffle(shuffled)
      modifies this
      ensures |stacks| == 4 && Distinct(stacks)
      ensures stacks[0].goesUp && stacks[1].goesUp && !stacks[2].goesUp && !stacks[3].goesUp
      ensures Piles(stacks) == [InitialPile(true), InitialPile(true), InitialPile(false), InitialPile(false)]
      ensures forall s :: 0 <= s < 4 ==> stacks[s].State() == InitialPile(stacks[s].goesUp)
      ensures fresh(deck) && deck.deck == shuffled && cardsPerPlayer == CardsPerPlayer(nPlayers)
      ensures handler.stacks == stacks && handler.players == players && handler.nPlayers == nPlayers
      ensures handler.Valid()
      ensures forall s, p :: 0 <= s < 4 && 0 <= p < nPlayers ==> handler.priority[s][p] == 0
      ensures |players| == nPlayers && Distinct(players)
      ensures forall i :: 0 <= i < nPlayers ==> fresh(players[i])
      ensures forall i :: 0 <= i < nPlayers ==>
        players[i].handler == handler && players[i].id == i && players[i].strategy == strategy &&
        players[i].cards == []
    {
      var st, d, h, ps := NewTable(nPlayers, strategy, shuffled);
      stacks, deck, handler, players := st, d, h, ps;
      cardsPerPlayer := CardsPerPlayer(nPlayers);
      forall s | 0 <= s < 4 ensures stacks[s].State() == InitialPile(stacks[s].goesUp) {
        assert stacks[s].State() == Piles(stacks)[s];
      }
    }

    /** The objects of a fresh game before the deal: the piles
        `[Stack(True)] * 2 + [Stack(False)] * 2` (as distinct objects), the
        shuffled deck, the zeroed board and the players with empty hands. */
    static method NewTable(nPlayers: nat, strategy: Strategy, shuffled: seq<int>)
      returns (st: seq<Stack>, d: Deck, h: Handler, ps: seq<Player>)
      requires IsShuffle(shuffled)
      ensures |st| == 4 && Distinct(st) && forall k :: 0 <= k < 4 ==> fresh(st[k])
      ensures st[0].goesUp && st[1].goesUp && !st[2].goesUp && !st[3].goesUp
      ensures Piles(st) == [InitialPile(true), InitialPile(true), InitialPile(false), InitialPile(false)]
      ensures fresh(d) && d.deck == shuffled && fresh(h)
      ensures forall i :: 0 <= i < |ps| ==> fresh(ps[i])
      ensures h.stacks == st && h.players == ps && h.nPlayers == nPlayers && h.Valid()
      ensures forall s, p :: 0 <= s < 4 && 0 <= p < nPlayers ==> h.priority[s][p] == 0
      ensures |ps| == nPlayers
      ensures forall i :: 0 <= i < nPlayers ==>
        ps[i].handler == h && ps[i].id == i && ps[i].strategy == strategy && ps[i].cards == []
    {
      var up0 := new Stack(true);
      var up1 := new Stack(true);
      var down0 := new Stack(false);
      var down1 := new Stack(false);
      st := [up0, up1, down0, down1];
      d := new Deck(shuffled);
      h := new Handler(nPlayers, st);
      ps := MakePlayers(h, nPlayers, strategy);
      h.SetPlayers(ps);
    }

    /** `[PlayerX(handler, i) for i in range(n)]`. */
    static method MakePlayers(handler: Handler, n: nat, strategy: Strategy) returns (ps: seq<Player>)
      ensures |ps| == n
      ensures forall i :: 0 <= i < n ==> fresh(ps[i])
      ensures forall i :: 0 <= i < n ==>
        ps[i].handler == handler && ps[i].id == i && ps[i].strategy == strategy && ps[i].cards == []
    {
      ps := [];
      var i := 0;
      while i < n
        invariant |ps| == i <= n
        invariant forall j :: 0 <= j < i ==> fresh(ps[j])
        invariant forall j :: 0 <= j < i ==>
          ps[j].handler == handler && ps[j].id == j && ps[j].strategy == strategy && ps[j].cards == []
      {
        var p := new Player(handler, i, strategy);
        ps := ps + [p];
        i := i + 1;
      }
    }

    /** `__distribute_cards` (main.py:280-283): each player in turn order
        draws `cardsPerPlayer` cards. */
    method DistributeCards()
      requires Distinct(players)
      modifies deck, players
      ensures deck.deck == Deal(old(deck.deck), cardsPerPlayer, |players|).1
      ensures Hands(players) == WithDealt(old(Hands(players)), Deal(old(deck.deck), cardsPerPlayer, |players|).0)
    {
      Distribute(deck, players, cardsPerPlayer);
    }

    /** The loop of `__distribute_cards`: player 0, 1, ... in turn draws
        `size` cards from `deck`. */
    static method Distribute(deck: Deck, players: seq<Player>, size: nat)
      requires Distinct(players)
      modifies deck, players
      ensures deck.deck == Deal(old(deck.deck), size, |players|).1
      ensures Hands(players) == WithDealt(old(Hands(players)), Deal(old(deck.deck), size, |players|).0)
    {
      ghost var d0 := deck.deck;
      ghost var before := Hands(players);
      var i := 0;
      while i < |players|
        invariant 0 <= i <= |players| == |before|
        invariant deck.deck == Deal(d0, size, i).1
        invariant Hands(players) == WithDealt(before, Deal(d0, size, i).0)
      {
        DealNext(deck, players, d0, before, size, i);
        i := i + 1;
      }
    }

    /** One step of `__distribute_cards`: player i draws `size` cards, which
        is the next hand of the deal. */
    static method DealNext(deck: Deck, players: seq<Player>, ghost d0: seq<int>, ghost before: seq<seq<int>>,
                           size: nat, i: nat)
      requires Distinct(players) && i < |players| == |before|
      requires deck.deck == Deal(d0, size, i).1
      requires Hands(players) == WithDealt(before, Deal(d0, size, i).0)
      modifies deck, players[i]
      ensures deck.deck == Deal(d0, size, i + 1).1
      ensures Hands(players) == WithDealt(before, Deal(d0, size, i + 1).0)
    {
      ghost var dealt := Deal(d0, size, i).0;
      var drawn := DrawInto(deck, players, i, size);
      DealUnfold(d0, size, i + 1);
      DealtStep(before, dealt, drawn);
    }

    /** Player i draws `n` cards from `deck` (`player.draw(deck.draw(n))`);
        no other hand changes. */
    static method DrawInto(deck: Deck, players: seq<Player>, i: nat, n: nat) returns (drawn: seq<int>)
      requires i < |players|
      requires forall j :: 0 <= j < |players| && j != i ==> players[j] != players[i]
      modifies deck, players[i]
      ensures drawn == DrawSplit(old(deck.deck), n).0
      ensures deck.deck == DrawSplit(old(deck.deck), n).1
      ensures Hands(players) == old(Hands(players))[i := old(players[i].cards) + drawn]
    {
      ghost var hands := Hands(players);
      drawn := deck.Draw(n);
      players[i].Draw(drawn);
      assert Hands(players) == hands[i := hands[i] + drawn];
    }

    /** What the turn of player i plays against the current state
        (main.py:291), `forced_one_card` being whether the deck is empty. */
    ghost function Outcome(i: nat, roll1: nat, roll2: nat): TurnOutcome
      requires i < |players|
      reads this, deck, handler, stacks, players
    {
      PlayTurn(strategy, players[i].cards, Piles(stacks), ClaimedStacks(handler.priority, i),
               |deck.deck| == 0, roll1, roll2)
    }

    /** The play of a turn (main.py:291): player i plays against the piles;
        the cards it played join the discard. */
    method PlayPhase(i: nat, roll1: nat, roll2: nat) returns (nPlayed: nat, blocked: bool)
      requires Valid() && i < |players|
      modifies players[i], stacks`current
      ensures Valid()
      ensures nPlayed == if old(deck.deck) == [] then 1 else 2
      ensures TurnOutcome(players[i].cards, Piles(stacks), blocked) == old(Outcome(i, roll1, roll2))
      ensures Hands(players) == old(Hands(players))[i := players[i].cards]
      ensures deck.deck == old(deck.deck) && handler.priority == old(handler.priority)
      ensures blocked ==> LegalMoves(players[i].cards, Piles(stacks)) == []
      ensures !blocked ==> Remaining() + nPlayed == old(Remaining())
      ensures Remaining() <= old(Remaining())
    {
      var player := players[i];
      ghost var hands0, piles0 := Hands(players), Piles(stacks);
      assert forall j :: 0 <= j < |players| && j != i ==> players[j] != player by {
        forall j | 0 <= j < |players| && j != i ensures players[j] != player {
          assert players[j].id != player.id;
        }
      }
      nPlayed, blocked := PlayCards(i, roll1, roll2);
      ghost var hand1, piles1 := player.cards, Piles(stacks);
      PlayAccounted(deck.deck, hands0, piles0, i, hand1, piles1);
    }

    /** The cards player i plays in its turn: exactly what `PlayTurn`
        prescribes, with the hand only losing cards and each pile showing its
        old top or one of those cards. */
    method PlayCards(i: nat, roll1: nat, roll2: nat) returns (nPlayed: nat, blocked: bool)
      requires Wired() && i < |players|
      requires forall j :: 0 <= j < |players| && j != i ==> players[j] != players[i]
      modifies players[i], stacks`current
      ensures Wired()
      ensures Hands(players) == old(Hands(players))[i := players[i].cards]
      ensures nPlayed == if deck.deck == [] then 1 else 2
      ensures TurnOutcome(players[i].cards, Piles(stacks), blocked) == old(Outcome(i, roll1, roll2))
      ensures PlaysOnto(old(players[i].cards), old(Piles(stacks)), players[i].cards, Piles(stacks))
      ensures blocked ==> LegalMoves(players[i].cards, Piles(stacks)) == []
      ensures !blocked ==> |players[i].cards| + nPlayed == old(|players[i].cards|)
      ensures |players[i].cards| <= old(|players[i].cards|)
    {
      var player := players[i];
      ghost var hands0 := Hands(players);
      var forced := deck.IsEmpty();
      nPlayed, blocked := player.Play(stacks, forced, roll1, roll2);
      assert Hands(players) == hands0[i := player.cards];
    }

    /** The draw of a turn (main.py:295-297): while the deck is not empty,
        player i draws as many cards as its turn asked for. */
    method DrawPhase(i: nat, n: nat)
      requires Valid() && i < |players|
      modifies deck, players[i]
      ensures Valid() && Remaining() == old(Remaining())
      ensures Piles(stacks) == old(Piles(stacks))
      ensures old(deck.deck) == [] ==> deck.deck == [] && players[i].cards == old(players[i].cards)
      ensures old(deck.deck) != [] ==>
        deck.deck == DrawSplit(old(deck.deck), n).1 &&
        players[i].cards == old(players[i].cards) + DrawSplit(old(deck.deck), n).0
      ensures Hands(players) == old(Hands(players))[i := players[i].cards]
    {
      if !deck.IsEmpty() {
        ghost var hands0, deck0, piles0 := Hands(players), deck.deck, Piles(stacks);
        assert forall j :: 0 <= j < |players| && j != i ==> players[j] != players[i] by {
          forall j | 0 <= j < |players| && j != i ensures players[j] != players[i] {
            assert players[j].id != players[i].id;
          }
        }
        var drawn := DrawInto(deck, players, i, n);
        assert Hands(players) == hands0[i := hands0[i] + drawn];
        assert players[i].cards == hands0[i] + drawn by {
          assert Hands(players)[i] == players[i].cards;
        }
        assert Wired() && Piles(stacks) == piles0;
        DrawAccounted(deck0, hands0, piles0, i, n);
      } else {
        assert Hands(players) == old(Hands(players))[i := players[i].cards];
        assert Piles(stacks) == old(Piles(stacks));
      }
    }

    /** The hooks at the end of a turn (main.py:298-299): player i's own
        hook (a SleepPriority player publishes), then the board's hook (every
        Priority player publishes). */
    method EndOfTurnHooks(i: nat)
      requires Valid() && i < |players|
      modifies handler`priority
      ensures Valid()
      ensures strategy == Priority ==> handler.priority == ClaimBoard(Hands(players), Piles(stacks))
      ensures strategy == SleepPriority ==>
        handler.priority == Publish(old(handler.priority), i, players[i].cards, Piles(stacks))
      ensures strategy == Random || strategy == Naive ==> handler.priority == old(handler.priority)
    {
      ghost var hands0, piles0 := Hands(players), Piles(stacks);
      players[i].PersonalEndTurnLogic(stacks);
      ghost var mid := handler.priority;
      handler.EndTurnLogic();
      if strategy != Priority {
        forall s | 0 <= s < |stacks| ensures handler.priority[s] == mid[s] {
          assert |handler.priority[s]| == |players| == |mid[s]|;
          forall p | 0 <= p < |players| ensures handler.priority[s][p] == mid[s][p] {
            assert handler.players[p].strategy != Priority;
            assert p < handler.nPlayers && s < |handler.priority|;
          }
        }
        assert handler.priority == mid;
      } else {
        ghost var board := ClaimBoard(Hands(players), Piles(stacks));
        forall s | 0 <= s < |stacks| ensures handler.priority[s] == board[s] {
          assert |handler.priority[s]| == |players| == |board[s]|;
          forall p | 0 <= p < |players| ensures handler.priority[s][p] == board[s][p] {
            assert handler.players[p].strategy == Priority;
            assert p < handler.nPlayers && s < |handler.priority|;
          }
        }
        assert handler.priority == board;
      }
      assert Hands(players) == hands0 && Piles(stacks) == piles0;
      assert Wired();
    }

    /** One turn of player i (main.py:289-299): play; stop the game if it
        blocked; otherwise draw while the deck lasts and run the end-of-turn
        hooks. */
    method Turn(i: nat, roll1: nat, roll2: nat) returns (blocked: bool)
      requires Valid() && i < |players|
      modifies deck, stacks`current, players, handler`priority
      ensures Valid()
      ensures blocked == old(Outcome(i, roll1, roll2)).blocked
      ensures Piles(stacks) == old(Outcome(i, roll1, roll2)).piles
      ensures blocked || old(deck.deck) == [] ==>
        players[i].cards == old(Outcome(i, roll1, roll2)).hand && deck.deck == old(deck.deck)
      ensures !blocked && old(deck.deck) != [] ==>
        players[i].cards == old(Outcome(i, roll1, roll2)).hand + DrawSplit(old(deck.deck), 2).0 &&
        deck.deck == DrawSplit(old(deck.deck), 2).1
      ensures Hands(players) == old(Hands(players))[i := players[i].cards]
      ensures blocked ==> LegalMoves(players[i].cards, Piles(stacks)) == []
      ensures blocked ==> handler.priority == old(handler.priority)
      ensures !blocked && strategy == Priority ==>
        handler.priority == ClaimBoard(Hands(players), Piles(stacks))
      ensures !blocked && strategy == SleepPriority ==>
        handler.priority == Publish(old(handler.priority), i, players[i].cards, Piles(stacks))
      ensures strategy == Random || strategy == Naive ==> handler.priority == old(handler.priority)
      ensures !blocked ==> Remaining() < old(Remaining())
      ensures Remaining() <= old(Remaining())
    {
      ghost var hands0 := Hands(players);
      var n;
      n, blocked := PlayPhase(i, roll1, roll2);
      if blocked {
        return;
      }
      ghost var played := players[i].cards;
      AfterPlay(i, n);
      UpdateTwice(hands0, i, played, players[i].cards);
    }

    /** The rest of a turn that did not block (main.py:295-299): the draw,
        then the end-of-turn hooks; the piles stay as they are. */
    method AfterPlay(i: nat, n: nat)
      requires Valid() && i < |players|
      modifies deck, players[i], handler`priority
      ensures Valid() && Remaining() == old(Remaining())
      ensures Piles(stacks) == old(Piles(stacks))
      ensures old(deck.deck) == [] ==> deck.deck == [] && players[i].cards == old(players[i].cards)
      ensures old(deck.deck) != [] ==>
        deck.deck == DrawSplit(old(deck.deck), n).1 &&
        players[i].cards == old(players[i].cards) + DrawSplit(old(deck.deck), n).0
      ensures Hands(players) == old(Hands(players))[i := players[i].cards]
      ensures strategy == Priority ==> handler.priority == ClaimBoard(Hands(players), Piles(stacks))
      ensures strategy == SleepPriority ==>
        handler.priority == Publish(old(handler.priority), i, players[i].cards, Piles(stacks))
      ensures strategy == Random || strategy == Naive ==> handler.priority == old(handler.priority)
    {
      DrawPhase(i, n);
      ghost var hands1, piles1 := Hands(players), Piles(stacks);
      EndOfTurnHooks(i);
      assert Hands(players) == hands1 && Piles(stacks) == piles1;
    }

    /** `play` (main.py:285-299): rounds of turns in player order until a
        turn blocks. Each turn that does not block plays at least one card
        and the cards left only shrink, so the game always ends, and it ends
        with a player who has no legal move. The random choices of the
        Random strategy come from `rng`, two per turn. */
    method Play(rng: nat -> nat)
      requires Valid() && |players| >= 1
      modifies deck, stacks`current, players, handler`priority
      ensures Valid()
      ensures exists i :: 0 <= i < |players| && LegalMoves(players[i].cards, Piles(stacks)) == []
      ensures Remaining() <= old(Remaining())
    {
      var lost := false;
      var t := 0;
      ghost var loser := 0;
      while !lost
        invariant Valid()
        invariant Remaining() <= old(Remaining())
        invariant lost ==> 0 <= loser < |players| && LegalMoves(players[loser].cards, Piles(stacks)) == []
        decreases if lost then 0 else 1, Remaining()
      {
        ghost var before := Remaining();
        var i := 0;
        while i < |players|
          invariant 0 <= i <= |players|
          invariant Valid()
          invariant Remaining() + i <= before
          invariant Remaining() <= old(Remaining())
        {
          var blocked := Turn(i, rng(t), rng(t + 1));
          t := t + 2;
          if blocked {
            lost := true;
            loser := i;
            break;
          }
          i := i + 1;
        }
      }
    }

    /** `get_result` (main.py:301-305): the cards left in the deck and in
        every hand; with the cards played they make up the 97. */
    method GetResult() returns (n: nat)
      requires Valid()
      ensures n == Remaining()
      ensures n + |Played(deck.deck, Hands(players))| == |FullDeck()| == 97
    {
      n := |deck.deck|;
      var i := 0;
      while i < |players|
        invariant 0 <= i <= |players|
        invariant n == |deck.deck| + HandsSize(Hands(players)[..i])
      {
        assert Hands(players)[..i + 1][..i] == Hands(players)[..i];
        n := n + |players[i].cards|;
        i := i + 1;
      }
      assert Hands(players)[..i] == Hands(players);
      PlayedCount(deck.deck, Hands(players));
    }
  }
}

/** The deck: the card set, the deal size, drawing from the end of the list,
    dealing to the players in turn order, and the class that holds the
    undealt cards. */
module Decks {
  import opened Rules

  /** `range(2, 99)`: every card once, in ascending order. */
  function FullDeck(): (d: seq<int>)
  {
    seq(MaxCard - MinCard + 1, i => MinCard + i)
  }

  /** A shuffled deck: every card exactly once, in any order. */
  ghost predicate IsShuffle(d: seq<int>)
  {
    multiset(d) == multiset(FullDeck())
  }

  /** A shuffled deck has 97 cards, all in 2..98 and no two alike. */
  lemma ShuffleShape(d: seq<int>)
    requires IsShuffle(d)
    ensures |d| == 97
    ensures forall i :: 0 <= i < |d| ==> MinCard <= d[i] <= MaxCard
    ensures forall i, j :: 0 <= i < j < |d| ==> d[i] != d[j]
  {
    assert |d| == |multiset(d)| == |multiset(FullDeck())| == 97;
    forall i | 0 <= i < |d| ensures MinCard <= d[i] <= MaxCard {
      assert d[i] in multiset(FullDeck());
    }
    forall i, j | 0 <= i < j < |d| ensures d[i] != d[j] {
      if d[i] == d[j] {
        TwiceCounted(d, i, j);
        FullDeckOnce(d[i]);
        assert false;
      }
    }
  }

  /** No card is counted twice in the full deck. */
  lemma FullDeckOnce(x: int)
    ensures multiset(FullDeck())[x] <= 1
  {
    var f := FullDeck();
    if MinCard <= x <= MaxCard {
      var k := x - MinCard;
      assert f == f[..k] + [x] + f[k + 1..];
      assert x !in f[..k] && x !in f[k + 1..];
    } else {
      assert x !in f;
    }
  }

  /** A value at two positions of a list is counted at least twice. */
  lemma TwiceCounted(d: seq<int>, i: int, j: int)
    requires 0 <= i < j < |d| && d[i] == d[j]
    ensures multiset(d)[d[i]] >= 2
  {
    assert d == d[..i] + [d[i]] + d[i + 1..j] + [d[j]] + d[j + 1..];
  }

  /** The number of cards dealt to each player: `{1: 8, 2: 7}.get(n, 6)`. */
  function CardsPerPlayer(nPlayers: int): (r: nat)
    ensures nPlayers == 1 ==> r == 8
    ensures nPlayers == 2 ==> r == 7
    ensures nPlayers != 1 && nPlayers != 2 ==> r == 6
  {
    var mapping := map[1 := 8, 2 := 7];
    if nPlayers in mapping then mapping[nPlayers] else 6
  }

  /** `[deck.pop() for _ in range(n)]`: the n cards taken from the end, last
      card first, and what stays behind. */
  function Pop(deck: seq<int>, n: nat): (r: (seq<int>, seq<int>))
    requires n <= |deck|
    ensures |r.0| == n && r.1 == deck[..|deck| - n]
    ensures forall i :: 0 <= i < n ==> r.0[i] == deck[|deck| - 1 - i]
    ensures multiset(r.0) + multiset(r.1) == multiset(deck)
  {
    if n == 0 then ([], deck)
    else
      var last := |deck| - 1;
      var (d, rest) := Pop(deck[..last], n - 1);
      assert deck == deck[..last] + [deck[last]];
      assert deck[..last][..last - (n - 1)] == deck[..|deck| - n];
      ([deck[last]] + d, rest)
  }

  /** Deck.draw(n) (main.py:20-26): when more than n cards remain, n cards
      popped from the end; otherwise the whole list as it is stored, leaving
      nothing. Gives the drawn cards and the remaining deck. */
  function DrawSplit(deck: seq<int>, n: nat): (r: (seq<int>, seq<int>))
    ensures |r.0| == if |deck| > n then n else |deck|
    ensures multiset(r.0) + multiset(r.1) == multiset(deck)
    ensures |deck| > n ==> |r.1| == |deck| - n && r.1 == deck[..|deck| - n]
    ensures |deck| > n ==> forall i :: 0 <= i < n ==> r.0[i] == deck[|deck| - 1 - i]
    ensures |deck| <= n ==> r.0 == deck && r.1 == []
  {
    if |deck| > n then Pop(deck, n) else (deck, [])
  }

  /** All cards of a list of hands, counted with multiplicity. */
  function HandsMultiset(hands: seq<seq<int>>): multiset<int>
  {
    if hands == [] then multiset{}
    else HandsMultiset(hands[..|hands| - 1]) + multiset(hands[|hands| - 1])
  }

  /** The number of cards in a list of hands. */
  function HandsSize(hands: seq<seq<int>>): nat
  {
    if hands == [] then 0 else HandsSize(hands[..|hands| - 1]) + |hands[|hands| - 1]|
  }

  lemma {:induction false} HandsSizeCounts(hands: seq<seq<int>>)
    ensures |HandsMultiset(hands)| == HandsSize(hands)
  {
    if hands != [] {
      HandsSizeCounts(hands[..|hands| - 1]);
    }
  }

  /** Replacing one hand changes the card count and the card multiset by
      exactly that hand's difference. */
  lemma {:induction false} HandsUpdate(hands: seq<seq<int>>, i: int, h: seq<int>)
    requires 0 <= i < |hands|
    ensures HandsMultiset(hands[i := h]) + multiset(hands[i]) == HandsMultiset(hands) + multiset(h)
    ensures HandsSize(hands[i := h]) + |hands[i]| == HandsSize(hands) + |h|
  {
    var last := |hands| - 1;
    var updated := hands[i := h];
    if i < last {
      HandsUpdate(hands[..last], i, h);
      assert updated[..last] == hands[..last][i := h];
      assert updated[last] == hands[last];
      assert hands[..last][i] == hands[i];
      calc {
        HandsMultiset(updated) + multiset(hands[i]);
        HandsMultiset(hands[..last][i := h]) + multiset(hands[last]) + multiset(hands[..last][i]);
        HandsMultiset(hands[..last][i := h]) + multiset(hands[..last][i]) + multiset(hands[last]);
        HandsMultiset(hands[..last]) + multiset(h) + multiset(hands[last]);
        HandsMultiset(hands) + multiset(h);
      }
      assert HandsSize(updated) == HandsSize(updated[..last]) + |hands[last]|;
    } else {
      assert hands[i := h][..last] == hands[..last];
    }
  }

  /** The cards played so far: those of the card set that are neither in
      the deck nor in any hand. */
  function Played(deck: seq<int>, hands: seq<seq<int>>): multiset<int>
  {
    multiset(FullDeck()) - (multiset(deck) + HandsMultiset(hands))
  }

  /** A hand that gives up cards (`h` is part of it): the deck and hands stay
      within the card set, every card played before is still played, and the
      cards the hand gave up are played now. */
  lemma PlayIntoDiscard(deck: seq<int>, hands: seq<seq<int>>, i: int, h: seq<int>)
    requires 0 <= i < |hands| && multiset(h) <= multiset(hands[i])
    requires multiset(deck) + HandsMultiset(hands) <= multiset(FullDeck())
    ensures multiset(deck) + HandsMultiset(hands[i := h]) <= multiset(FullDeck())
    ensures Played(deck, hands) <= Played(deck, hands[i := h])
    ensures multiset(hands[i]) - multiset(h) <= Played(deck, hands[i := h])
    ensures HandsSize(hands[i := h]) + |hands[i]| == HandsSize(hands) + |h|
  {
    HandsUpdate(hands, i, h);
    var before, after := multiset(deck) + HandsMultiset(hands), multiset(deck) + HandsMultiset(hands[i := h]);
    assert after + multiset(hands[i]) == before + multiset(h) by {
      forall v ensures (after + multiset(hands[i]))[v] == (before + multiset(h))[v] {
        assert (HandsMultiset(hands[i := h]) + multiset(hands[i]))[v] == (HandsMultiset(hands) + multiset(h))[v];
      }
    }
    ShrinkHeld(multiset(FullDeck()), before, after, multiset(hands[i]), multiset(h));
  }

  /** A played card is a card of the set that was played once: it is in
      neither the deck nor any hand. */
  lemma PlayedOnce(deck: seq<int>, hands: seq<seq<int>>, x: int)
    requires x in Played(deck, hands)
    ensures MinCard <= x <= MaxCard
    ensures Played(deck, hands)[x] == 1
    ensures x !in multiset(deck) + HandsMultiset(hands)
  {
    FullDeckOnce(x);
    assert x in FullDeck();
  }

  /** A card some hand holds has not been played. */
  lemma HeldNotPlayed(deck: seq<int>, hands: seq<seq<int>>, i: int, x: int)
    requires 0 <= i < |hands| && x in hands[i]
    ensures x !in Played(deck, hands)
  {
    HandsUpdate(hands, i, []);
    FullDeckOnce(x);
    assert HandsMultiset(hands)[x] >= multiset(hands[i])[x] >= 1 by {
      assert (HandsMultiset(hands[i := []]) + multiset(hands[i]))[x] == HandsMultiset(hands)[x];
    }
    assert (multiset(deck) + HandsMultiset(hands))[x] >= 1;
  }

  /** The multiset arithmetic behind PlayIntoDiscard: what is held shrinks by
      what the hand gave up, and the rest of `full` grows by it. */
  lemma ShrinkHeld(full: multiset<int>, before: multiset<int>, after: multiset<int>,
                   gaveUp: multiset<int>, kept: multiset<int>)
    requires after + gaveUp == before + kept && kept <= gaveUp && before <= full
    ensures after <= full
    ensures full - before <= full - after
    ensures gaveUp - kept <= full - after
  {
    forall v ensures after[v] + gaveUp[v] == before[v] + kept[v] {
      assert (after + gaveUp)[v] == (before + kept)[v];
    }
    forall v ensures after[v] <= full[v] {
      assert kept[v] <= gaveUp[v] && before[v] <= full[v];
    }
    forall v ensures (full - before)[v] <= (full - after)[v] && (gaveUp - kept)[v] <= (full - after)[v] {
      assert kept[v] <= gaveUp[v] && before[v] <= full[v];
    }
  }

  /** Cards drawn from the deck into a hand: deck and hands together are unchanged. */
  lemma DrawIntoHand(hands: seq<seq<int>>, i: int, deck: seq<int>, n: nat)
    requires 0 <= i < |hands|
    ensures multiset(DrawSplit(deck, n).1) + HandsMultiset(hands[i := hands[i] + DrawSplit(deck, n).0])
         == multiset(deck) + HandsMultiset(hands)
    ensures |DrawSplit(deck, n).1| + HandsSize(hands[i := hands[i] + DrawSplit(deck, n).0])
         == |deck| + HandsSize(hands)
  {
    var r := DrawSplit(deck, n);
    var updated := hands[i := hands[i] + r.0];
    HandsUpdate(hands, i, hands[i] + r.0);
    assert multiset(hands[i] + r.0) == multiset(hands[i]) + multiset(r.0);
    calc {
      multiset(r.1) + (HandsMultiset(updated) + multiset(hands[i]));
      multiset(r.1) + (HandsMultiset(hands) + multiset(hands[i] + r.0));
      multiset(r.1) + HandsMultiset(hands) + multiset(hands[i]) + multiset(r.0);
      HandsMultiset(hands) + multiset(hands[i]) + (multiset(r.0) + multiset(r.1));
      multiset(deck) + HandsMultiset(hands) + multiset(hands[i]);
    }
    Cancel(multiset(r.1) + HandsMultiset(updated), multiset(deck) + HandsMultiset(hands), multiset(hands[i]));
  }

  /** With the deck and hands inside the card set, the played cards are
      exactly the rest of it, so the three together count 97 cards. */
  lemma PlayedCount(deck: seq<int>, hands: seq<seq<int>>)
    requires multiset(deck) + HandsMultiset(hands) <= multiset(FullDeck())
    ensures |deck| + HandsSize(hands) + |Played(deck, hands)| == |FullDeck()| == 97
  {
    var held := multiset(deck) + HandsMultiset(hands);
    HandsSizeCounts(hands);
    assert Played(deck, hands) + held == multiset(FullDeck()) by {
      forall v ensures (Played(deck, hands) + held)[v] == multiset(FullDeck())[v] {
      }
    }
    assert |multiset(FullDeck())| == |FullDeck()|;
  }

  /** One more hand adds its cards. */
  lemma HandsMultisetSnoc(hands: seq<seq<int>>, h: seq<int>)
    ensures HandsMultiset(hands + [h]) == HandsMultiset(hands) + multiset(h)
  {
    assert (hands + [h])[..|hands|] == hands;
  }

  /** Multiset addition regroups: a + b + c is a + (b + c). */
  lemma Regroup(a: multiset<int>, b: multiset<int>, c: multiset<int>, d: multiset<int>, e: multiset<int>)
    requires b + c == d && a + d == e
    ensures a + b + c == e
  {
    forall v ensures (a + b + c)[v] == e[v] {
      assert (b + c)[v] == d[v];
      assert (a + d)[v] == e[v];
    }
  }

  /** Multiset addition cancels. */
  lemma Cancel(a: multiset<int>, b: multiset<int>, x: multiset<int>)
    requires a + x == b + x
    ensures a == b
  {
    forall v ensures a[v] == b[v] {
      assert (a + x)[v] == (b + x)[v];
    }
  }

  /** `__distribute_cards` (main.py:280-283) on values: player 0, then 1, ...
      each takes the next DrawSplit of `size` cards. Gives the hands and the
      remaining deck. */
  function Deal(deck: seq<int>, size: nat, nPlayers: nat): (r: (seq<seq<int>>, seq<int>))
    ensures |r.0| == nPlayers
  {
    if nPlayers == 0 then ([], deck)
    else
      var before := Deal(deck, size, nPlayers - 1);
      var next := DrawSplit(before.1, size);
      (before.0 + [next.0], next.1)
  }

  /** The next player takes the next draw, and the earlier hands stay. */
  lemma DealStep(deck: seq<int>, size: nat, k: nat)
    ensures Deal(deck, size, k + 1).1 == DrawSplit(Deal(deck, size, k).1, size).1
    ensures Deal(deck, size, k + 1).0[k] == DrawSplit(Deal(deck, size, k).1, size).0
    ensures forall j :: 0 <= j < k ==> Deal(deck, size, k + 1).0[j] == Deal(deck, size, k).0[j]
  {
  }

  /** Dealing loses and creates no card. */
  lemma {:induction false} DealConserves(deck: seq<int>, size: nat, nPlayers: nat)
    ensures HandsMultiset(Deal(deck, size, nPlayers).0) + multiset(Deal(deck, size, nPlayers).1)
         == multiset(deck)
  {
    if nPlayers > 0 {
      DealConserves(deck, size, nPlayers - 1);
      DealConservesStep(deck, size, nPlayers);
    }
  }

  /** The inductive step of DealConserves: if the first nPlayers - 1 hands
      and what is left keep every card, so do they after the next draw. */
  lemma DealConservesStep(deck: seq<int>, size: nat, nPlayers: nat)
    requires nPlayers > 0
    requires HandsMultiset(Deal(deck, size, nPlayers - 1).0) + multiset(Deal(deck, size, nPlayers - 1).1)
          == multiset(deck)
    ensures HandsMultiset(Deal(deck, size, nPlayers).0) + multiset(Deal(deck, size, nPlayers).1)
         == multiset(deck)
  {
    var before := Deal(deck, size, nPlayers - 1);
    var next := DrawSplit(before.1, size);
    DealUnfold(deck, size, nPlayers);
    DealOneMore(before.0, before.1, next.0, next.1, deck);
  }

  /** One more player: the earlier hands, then the next draw. */
  lemma DealUnfold(deck: seq<int>, size: nat, nPlayers: nat)
    requires nPlayers > 0
    ensures var before := Deal(deck, size, nPlayers - 1);
      Deal(deck, size, nPlayers) ==
        (before.0 + [DrawSplit(before.1, size).0], DrawSplit(before.1, size).1)
  {
  }

  /** The multiset step of DealConserves: a draw that splits the rest into
      a new hand and a smaller rest keeps every card. */
  lemma DealOneMore(hands: seq<seq<int>>, rest: seq<int>, drawn: seq<int>, left: seq<int>, deck: seq<int>)
    requires HandsMultiset(hands) + multiset(rest) == multiset(deck)
    requires multiset(drawn) + multiset(left) == multiset(rest)
    ensures HandsMultiset(hands + [drawn]) + multiset(left) == multiset(deck)
  {
    HandsMultisetSnoc(hands, drawn);
    Regroup(HandsMultiset(hands), multiset(drawn), multiset(left), multiset(rest), multiset(deck));
  }

  /** While cards last every player gets a full hand: with
      `nPlayers * size <= |deck|` each hand has `size` cards and
      `|deck| - nPlayers * size` remain. */
  lemma {:induction false} DealFull(deck: seq<int>, size: nat, nPlayers: nat)
    requires nPlayers * size <= |deck|
    ensures |Deal(deck, size, nPlayers).1| == |deck| - nPlayers * size
    ensures forall i :: 0 <= i < nPlayers ==> |Deal(deck, size, nPlayers).0[i]| == size
  {
    if nPlayers > 0 {
      var k := nPlayers - 1;
      OneFewer(nPlayers, size);
      DealFull(deck, size, k);
      DealStep(deck, size, k);
    }
  }

  /** `(n - 1) * size == n * size - size`. */
  lemma OneFewer(n: nat, size: nat)
    requires n > 0
    ensures (n - 1) * size == n * size - size
  {
  }

  /** The undealt cards; the end of the list is the top of the deck. */
  class Deck {
    var deck: seq<int>

    /** `Deck()` with the order that `random.shuffle` produced given as `shuffled`. */
    constructor (shuffled: seq<int>)
      requires IsShuffle(shuffled)
      ensures deck == shuffled
    {
      deck := shuffled;
    }

    /** Draw `n` cards (main.py:20-26). */
    method Draw(n: nat) returns (drawn: seq<int>)
      modifies this
      ensures drawn == DrawSplit(old(deck), n).0
      ensures deck == DrawSplit(old(deck), n).1
    {
      if |deck| > n {
        ghost var d0 := deck;
        drawn := [];
        var i := 0;
        while i < n
          invariant 0 <= i <= n
          invariant deck == d0[..|d0| - i]
          invariant |drawn| == i
          invariant forall k :: 0 <= k < i ==> drawn[k] == d0[|d0| - 1 - k]
        {
          drawn := drawn + [deck[|deck| - 1]];
          deck := deck[..|deck| - 1];
          i := i + 1;
        }
        ghost var r := DrawSplit(d0, n);
        assert drawn == r.0;
      } else {
        drawn := deck;
        deck := [];
      }
    }

    /** `is_empty` (main.py:28-29): the deck is empty exactly when drawing
        a card yields nothing. */
    function IsEmpty(): (r: bool)
      reads this
      ensures r <==> DrawSplit(deck, 1).0 == []
    {
      |deck| == 0
    }
  }
}

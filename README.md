# The Game — a verified model of the simulation engine

This project models in Dafny the engine of FedZer/TheGame. That program
simulates the cooperative card game *The Game*:

- 97 cards, numbered 2..98, are shuffled into a deck and dealt to the players.
  Each player gets 8, 7 or 6 cards, depending on the number of players.
- There are four piles. Two ascend and start at 1; two descend and start at 99.
- A card may go on an ascending pile when it is above the top, or exactly 10
  below it (the *back-step*). Descending piles mirror this.
- Each turn a player plays two cards, or only one once the deck is empty. The
  player then draws back as many cards as the turn asked for, while the deck lasts.
- The first player with no legal move blocks, and the game is lost. Its
  result is the number of cards not played.

Four strategies choose the moves:

- **Random**: any legal move.
- **Naive**: the first move of smallest distance.
- **SleepPriority** and **Priority**: these share one priority play. It plays
  a back-step first. Otherwise it prefers piles that no other player has
  *claimed* on a shared priority board. The two differ only in when a player
  republishes its claims: after its own turn, or whenever the board's hook
  runs.

The board's hook runs after every turn, not once per round, because the
per-player loop calls it (main.py:299). The model does the same.

The modules follow the program's structure:

- `Rules` (rules.dfy) covers pile states, validity, the distance score, and the
  enumeration of legal moves, all on values.
- `Selection` (selection.dfy) covers the stable sort by distance, Python's
  `min`, the back-step filter, and the priority pick. Each is a function with
  lemmas that state what it chooses.
- `Strategies` (strategies.dfy) covers one play and one turn of each strategy,
  as pure reference functions (`OnePlay`, `PlayTurn`), plus the claims a
  player publishes (`Publish`, `ClaimBoard`).
- `Decks` (deck.dfy) covers the full deck, `get_cards_per_player`, the
  drawing rule, the deal, and the accounting of played cards. It also holds
  the class `Deck`, whose `deck` field is the list the source pops from.
- `Engine` (engine.dfy) holds the classes that the source mutates in place:
  `Stack`, `Handler` (the priority board), `Player`, and `Game` with its turn
  loop.

Every method of `Engine` is proved against the reference functions of the
other modules or an exact description of the new state. For example,
`Player.Play` leaves hand and piles exactly as `PlayTurn` prescribes.
`Game.Valid()` is the invariant that every card is accounted for:

- it is in the deck, in a hand, or among the played cards;
- each pile shows its initial value or a played card;
- no played card shows on two piles.

Every turn keeps that invariant. Every turn that does not block strictly lowers
the number of cards left, which is the termination measure of `Game.Play`.

## Model

| member | source | states |
|---|---|---|
| Rules.InitialPile | main.py:184-186 | a fresh pile keeps its direction, starts below 2 (ascending) or above 98 (descending), and accepts every card 2..98 |
| Rules.MirrorRules | main.py:184-208 | the descending rules mirror the ascending ones under v ↦ 100 - v: the two start values 1 and 99 swap, the cards 2..98 map onto themselves, and validity, the back-step and the distance score are the same for a card on a pile and for its mirror on the flipped pile |
| Rules.Distance | main.py:200-208 | for a valid card the score is -1 exactly for the back-step; any other valid card scores its gap from the top, which is at least 1 |
| Rules.DistanceMonotone | main.py:200-208 | among forward plays on one pile, a card farther from the top scores strictly more |
| Rules.BackStepFirst | main.py:200-208 | a back-step scores strictly less than any other valid play on any pile, so it sorts first |
| Rules.CardMovesSpec | main.py:44-46 | the inner loop lists a (card, pile, distance) triple iff the card is valid on that pile with that distance, in pile order |
| Rules.LegalMovesSpec | main.py:41-47 | the legal moves are sound and complete (each triple describes a valid play with its distance, and every valid play is listed) and come in hand-major, pile-minor order |
| Rules.NoMovesIff | main.py:41-47 | there is no legal move iff no card of the hand is valid on any pile |
| Selection.InsertPermutes | main.py:133 | inserting a move into a list adds exactly that move (as a multiset) |
| Selection.InsertSorts | main.py:133 | inserting into a list sorted by distance keeps it sorted |
| Selection.SortSpec | main.py:133 | `sorted(moves, key=distance)` is a permutation of the moves and is sorted by distance |
| Selection.SortIsStable | main.py:133 | sorting the enumeration keeps equal distances in enumeration order (Python's sort is stable), so the sorted list is strictly ordered by (distance, card index, pile index) |
| Selection.InsertBetterOrdered | main.py:133 | inserting a move that precedes every listed one in enumeration order keeps that strict order |
| Selection.SortSameMoves | main.py:133 | the sorted list holds the same moves as the input |
| Selection.BackSteps | main.py:148 | the filtered list holds exactly the listed moves of distance -1 |
| Selection.FirstMinimumSpec | main.py:105 | `min(moves, key=distance)` has the least distance, and every move before it has a strictly larger one (it is the first minimum) |
| Selection.FirstMinimumIsBest | main.py:105 | on an enumeration, the first minimum is the least move in (distance, card, pile) order |
| Selection.NaiveIsSortedHead | main.py:105 | on an enumeration, the naive pick equals the head of the stable sort |
| Selection.HeadIsBest | main.py:133-134 | the head of a strictly ordered list is its best move |
| Selection.BestIsUnique | main.py:133-141 | at most one move is the best among moves on unclaimed piles |
| Selection.FirstUnclaimedSpec | main.py:137-140 | the scan finds nothing iff every move targets a claimed pile; otherwise it returns a move on an unclaimed pile, and every move before it is on a claimed pile |
| Selection.FirstUnclaimedAt | main.py:137-140 | when move k is the first one on an unclaimed pile, the scan returns it |
| Selection.FirstUnclaimedIsBest | main.py:137-140 | on the sorted list, the scan returns the best move among those on unclaimed piles |
| Selection.PriorityPickOrdered | main.py:133-141 | the priority pick is a legal move: the head when it is a back-step; otherwise the best move on an unclaimed pile if there is one; otherwise the head |
| Selection.PriorityPickSpec | main.py:133-141 | on the sorted enumeration: a back-step is played when one exists; otherwise the best move on an unclaimed pile is played; when every pile is claimed the best move is still played (the non-blocking fallback) |
| Selection.LegalMovesWellScored | main.py:46 | every legal move carries -1 or a positive distance |
| Selection.NaiveChoice | main.py:101-109 | the naive play of a hand is its best legal move and the head of the sorted moves |
| Selection.PriorityChoice | main.py:129-141 | the three cases of the priority play, stated on the legal moves of a hand |
| Strategies.WantsBackStepIff | main.py:144-148 | a player wants to claim pile s iff some card of its hand is the back-step of that pile |
| Strategies.BackStepTargets | main.py:146-150 | the piles flagged by `_ask_priority` (the piles of the -1 moves among the sorted legal moves) are exactly the piles where the player holds a back-step |
| Strategies.RemoveAt | main.py:80 | `cards.pop(i)` leaves one card fewer, removes exactly `hand[i]` as a multiset, and keeps the other cards in order |
| Strategies.Apply | main.py:80 | a play removes the card from the hand and puts it on top of its pile; every pile keeps its direction and the other piles are unchanged |
| Strategies.ChooseSpec | main.py:73-81 | a strategy chooses nothing iff the hand has no legal move; otherwise it chooses a legal move that describes a valid play |
| Strategies.OnePlayBlocks | main.py:74-76 | one play blocks iff there is no legal move, and then changes neither hand nor piles |
| Strategies.OnePlayChosen | main.py:80 | a play that chose move m applies exactly m |
| Strategies.OnePlayMovesOneCard | main.py:129-142 | a play that does not block removes one card c from the hand and makes it the top of a pile on which it was valid; nothing else changes |
| Strategies.CardPlayKeeps | main.py:80 | playing card c on pile t removes exactly that card, and each pile keeps its direction and shows either its old top or c (`PlaysOnto`) |
| Strategies.OnePlayKeeps | main.py:129-142 | one play only takes cards out of the hand (one unless blocked), and each pile keeps its direction and shows its old top or a card taken (`PlaysOnto`) |
| Strategies.PlaysOntoTrans | main.py:122-127 | two plays in a row, each only taking cards from the hand and putting them on the piles, together do the same: each changed pile shows a card taken, and two changed piles show two cards taken |
| Strategies.PlayTurnCounts | main.py:122-127 | a turn ends blocked only with no legal move left; a turn that does not block takes exactly 1 card (forced, deck empty) or 2; a blocked turn took fewer |
| Strategies.PlayTurnKeeps | main.py:122-127 | a whole turn only takes cards out of the hand, every pile shows its old top or one of the cards taken, and no card taken shows on two piles |
| Strategies.PublishSpec | main.py:144-150 | publishing rewrites only the player's own column: cell [s][p] becomes 1 iff the hand holds the back-step of pile s, else 0; all other cells stay |
| Decks.ShuffleShape | main.py:13-18 | a shuffled deck has 97 cards, all in 2..98 and all distinct |
| Decks.FullDeckOnce | main.py:14 | `range(2, 99)` holds each card at most once |
| Decks.CardsPerPlayer | main.py:7-9 | 8 cards for one player, 7 for two, 6 for any other count |
| Decks.Pop | main.py:22 | popping n cards takes the last n in reverse order, leaves the prefix, and loses no card |
| Decks.DrawSplit | main.py:20-26 | `draw(n)` returns min(n, size) cards, and drawn plus remaining equal the old deck as a multiset; above n, the last n cards are popped in reverse and the prefix remains; otherwise the whole deck is drawn and none remains |
| Decks.HandsSizeCounts | main.py:302-305 | the number of cards in the hands is the size of their multiset union |
| Decks.HandsUpdate | main.py:38-39 | replacing one hand changes the union of the hands, and their size, by exactly that hand's difference |
| Decks.PlayIntoDiscard | main.py:80 | cards taken out of a hand join the played cards, which never shrink, and the held cards stay within the full deck |
| Decks.DrawIntoHand | main.py:295-297 | moving a draw from the deck into a hand keeps the held multiset and the number of held cards |
| Decks.PlayedOnce | main.py:14 | a played card is a card 2..98, played once, and in neither the deck nor any hand |
| Decks.HeldNotPlayed | main.py:38-39 | a card in some hand has not been played |
| Decks.PlayedCount | main.py:301-305 | deck size, plus the cards in hand, plus the number of played cards is 97 |
| Decks.Deal | main.py:280-283 | the deal gives exactly one hand per player |
| Decks.DealStep | main.py:280-283 | player k takes the next draw of the given size from what the earlier players left; the earlier hands stay |
| Decks.DealUnfold | main.py:280-283 | dealing to one more player appends the next draw to the hands |
| Decks.DealConservesStep | main.py:281-283 | if dealing to n - 1 players keeps every card, so does dealing to n |
| Decks.DealConserves | main.py:280-283 | the hands dealt plus the deck left equal the shuffled deck as a multiset |
| Decks.DealFull | main.py:280-283 | while cards last, every hand has exactly the deal size and `|deck| - players * size` cards remain |
| Decks.Deck.constructor | main.py:13-15 | the deck holds the given shuffled order |
| Decks.Deck.Draw | main.py:20-26 | the method returns the drawn part of DrawSplit and keeps its remaining part |
| Decks.Deck.IsEmpty | main.py:28-29 | true iff a draw of one card would yield nothing |
| Engine.DealtStep | main.py:282-283 | player k drawing its hand extends the dealt prefix by one |
| Engine.DealAccounted | main.py:262-283 | right after the deal every card is accounted for and none has been played |
| Engine.PlayAccounted | main.py:291 | a play out of hand i onto the piles keeps every card accounted for, no played card on two piles included, and lowers the cards in hand by exactly the cards taken |
| Engine.PlayedTopsApart | main.py:80 | after such a play, a pile showing a played card shows a card no other pile shows |
| Engine.NoCardTwice | main.py:80 | where every card is accounted for, no card is in two places: deck and hands hold each card at most once, no pile shows a card still in the deck or a hand, and no two piles show the same played card |
| Engine.DrawAccounted | main.py:295-297 | a draw into hand i keeps every card accounted for and the number of cards left |
| Engine.Stack.constructor | main.py:184-186 | a new pile is the initial pile of its direction |
| Engine.Stack.Add | main.py:188-191 | `ok` holds iff the card is valid on the old pile; then the card becomes the top, otherwise the pile is unchanged (the source raises) |
| Engine.Handler.constructor | main.py:215-219 | a board of one zeroed row per pile, with one cell per player |
| Engine.Handler.SetPlayers | main.py:221-222 | the board now refers to the given players |
| Engine.Handler.AskPriority | main.py:224-225 | sets cell [s][p] to 1 and no other cell |
| Engine.Handler.CleanOldPriorities | main.py:227-229 | zeroes column p in every row and leaves every other column as it was |
| Engine.Handler.CheckAskedPriority | main.py:231-236 | true iff some player other than p has flagged pile s, that is, iff s is claimed against p |
| Engine.Handler.EndTurnLogic | main.py:238-240 | every Priority player's column becomes its published claims; every other column stays |
| Engine.Player.constructor | main.py:33-36 | a player with the given board, id and strategy, and an empty hand |
| Engine.Player.Draw | main.py:38-39 | the drawn cards are appended to the hand |
| Engine.Player.GetLegalMoves | main.py:41-47 | the nested loops compute exactly `LegalMoves` of the hand and the piles |
| Engine.Player.PlayMove | main.py:80 | a legal move leaves hand and piles as `Apply` gives, and `add` never raises for it |
| Engine.Player.PlayOneRandom | main.py:73-81 | the random play is the reference Random play, with `randrange(len(moves))` as `roll % len(moves)` |
| Engine.Player.PlayOneNaive | main.py:101-109 | the naive play is the reference Naive play |
| Engine.Player.PriorityMove | main.py:133-141 | the chosen move is the priority pick of the sorted moves for the piles other players have claimed |
| Engine.Player.PlayOnePriority | main.py:129-142 | the priority play is the reference priority play for the current claims |
| Engine.Player.PlayOne | main.py:67 | one play dispatches on the strategy to its reference play |
| Engine.Player.Play | main.py:66-71 | reports 1 or 2 as the source does, leaves the state `PlayTurn` gives, only takes cards from the hand, leaves every pile on its old top or a taken card, blocks only with no legal move left, and otherwise takes exactly the count reported |
| Engine.Player.AskPriority | main.py:144-152 | the board becomes `Publish` of the old board for this player: its column flags exactly its back-step piles, and nothing else changes |
| Engine.Player.FlagPiles | main.py:149-150 | the loop flags, in the player's column, exactly the piles of the given moves |
| Engine.Player.EndTurnLogic | main.py:176-177 | a Priority player publishes; the other strategies leave the board |
| Engine.Player.PersonalEndTurnLogic | main.py:168-169 | a SleepPriority player publishes; the other strategies leave the board |
| Engine.Game.constructor | main.py:250-257 | a set-up game: the invariant holds, four initial piles, the deal of the given shuffled deck, nothing played, and a zeroed board |
| Engine.Game.Reset | main.py:259-260 | the same state as a new game |
| Engine.Game.InitializeGame | main.py:262-278 | two ascending and two descending initial piles, the per-player hand size, the players dealt in id order from the shuffled deck, every card accounted for and none played |
| Engine.Game.SetUp | main.py:263-276 | the objects of a fresh game, wired to one another, with empty hands and a zeroed board |
| Engine.Game.NewTable | main.py:263-276 | four distinct fresh piles (up, up, down, down), the deck, the board sized for the players, and players 0..n-1 with the strategy |
| Engine.Game.MakePlayers | main.py:269 | n new players with ids 0..n-1, the board and the strategy |
| Engine.Game.DistributeCards | main.py:280-283 | the deck left and the hands are those of `Deal` on the old deck |
| Engine.Game.Distribute | main.py:281-283 | the loop deals the players in turn order, as `Deal` prescribes |
| Engine.Game.DealNext | main.py:282-283 | one dealing step extends the deal by player i's hand |
| Engine.Game.DrawInto | main.py:282-283 | player i receives the drawn part of `DrawSplit`, the deck keeps the rest, and no other hand changes |
| Engine.Game.PlayPhase | main.py:291 | the play of a turn: the state `PlayTurn` prescribes, with `forced_one_card` being deck emptiness; the invariant is kept, only hand i and the piles change, a blocked turn has no legal move left, and a turn that does not block removes exactly the reported count from the cards left |
| Engine.Game.PlayCards | main.py:291 | player i's play leaves the state `PlayTurn` prescribes and changes no other hand |
| Engine.Game.DrawPhase | main.py:295-297 | a player draws the count while the deck is not empty; the cards left and the invariant are kept |
| Engine.Game.EndOfTurnHooks | main.py:298-299 | after the hooks, with Priority the board is the claims of every hand; with SleepPriority only player i republishes; Random and Naive leave it |
| Engine.Game.AfterPlay | main.py:295-299 | the draw, then the hooks, of a turn that did not block; the invariant and the cards left are kept |
| Engine.Game.Turn | main.py:289-299 | one turn: play, stop if blocked, otherwise draw and run the hooks; a turn that does not block strictly lowers the cards left; a blocked one leaves a player without a legal move |
| Engine.Game.Play | main.py:285-299 | the game terminates (measure: cards left) and ends with some player who has no legal move, keeping the invariant |
| Engine.Game.GetResult | main.py:301-305 | the result is the cards in the deck plus the cards in every hand, and with the played cards they make 97 |

## Left out

- `random.shuffle` (main.py:17-18) is replaced by a `shuffled` parameter, which
  must be a permutation of 2..98. `random.randrange(len(moves))` (main.py:77)
  becomes `roll % len(moves)`; `Game.Play` takes the rolls from a function
  `rng` of the turn number, two per turn. The random generator itself is not modelled.
- The `SHOW_GAME` printing, `Handler.__str__` and `Game.__show_turn`
  (main.py:242-246, 307-314) only display; they are not modelled.
- `save_results_to_file` (CSV output), `play_many`, `play_one`, `main`, the
  global `results` list and `print_win_rate` (floating point) are the batch
  driver around the engine. They are not modelled.
- The global `PLAYER_TYPE` (main.py:325) becomes the `strategy` argument of the
  `Game` constructor. Each player subclass becomes a value of `Strategy`.
- Stack.add raises `NameError` for an invalid card. `Engine.Stack.Add` instead
  returns `ok == false` and leaves the pile as it was. `Player.PlayMove` proves
  that the strategies never reach that case.
- `Game.__init__` first sets fields to `None` or empty lists. The model sets
  them to placeholder objects before `InitializeGame` replaces them.
- Engine.Game.Play: requires at least one player. With no players, the
  source's `while not lost` never ends, and a non-terminating loop cannot be
  stated here. The contract states that the game ends with some blocked
  player; it does not state which player, or the exact final piles.
- Python's unbounded integers need no width modelling.

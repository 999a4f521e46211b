# Durak game engine in Dafny

This project models the core of a two-to-four-player Durak card game engine,
the TypeScript file `game.ts`. The model has three parts:

- the 36-card pack and its backward Fisher-Yates shuffle;
- the `Player` class with its hand and flags;
- the `Game` class: its constructor and `getNewCard`, `getFullHand`,
  `getAttackingPlayer`, `getDefendingPlayer`, `isPossibleMove`, `move`,
  `bito`, `missAttack` and `changePlayersTurn`.

Modules:

- `Seqs` (`seqs.dfy`): sequence helpers. `Without` models
  `filter(c => c !== x)`; `Reversed` gives the order in which repeated `pop`
  hands cards out; `Swap` is the array swap.
- `Cards` (`cards.dfy`): suits, levels, cards, the pack, and the shuffle.
  The shuffle is a specification function `Shuffled` plus a `Shuffle` method
  that runs the source's loop over an array. The random draws come in as a
  sequence `pick` with `pick[i] <= i`.
- `Rules` (`rules.dfy`): the game as values. A `State` holds the stock, the
  table, one `Seat` per player (the player's fields), the trump suit and the
  winners. Each operation of `Game` is a function on states. A player is
  identified by its seat `order`, which is what `filter(p => p !== player)`
  and `changePlayersTurn` need once orders are distinct.
- `Invariant` (`invariant.dfy`): the invariant a game keeps while nobody has
  won. It says there are two to four players seated by order, one attacker
  and the seat after it as the one defender, and one turn holder. It also
  says only the defender's protection can be broken, and the trump is the
  suit of the stock's first card. This module proves that construction
  establishes the invariant and that `move`, `missAttack` and `bito` keep
  it until the first winner leaves. Up to and including that trick, it also
  proves that no card is made, that only a held defence's table is
  discarded, that no card is held twice, and who wins when.
- `Durak` (`durak.dfy`): the `Player` and `Game` classes as objects updated
  in place. `Game.Model()` reads the fields as a `Rules.State`, and every
  method is proved to change it exactly as the matching `Rules` function
  says. A player argument of the source is passed as its index in
  `players`. What the source returns (nothing, or an "Invalid ..." string) is
  an `Outcome`.

Behaviour of `game.ts` worth knowing, which the model keeps:
- On a broken defence (game.ts:158-167), the defender takes the table and
  goes idle; the seat after it attacks and the seat after that defends.
- After `bito`, hands are refilled in player-list order (game.ts:186).
- `missAttack` hands the turn to the attacker whoever calls it
  (game.ts:195-196).
- Construction throws one of two messages, modelled as the errors
  `MinimumPlayers` and `MaximumPlayers` (game.ts:73-74).
- `removeCard` drops every card equal to the given one (game.ts:52).

## Model

| member | source | states |
|---|---|---|
| Cards.PackExactlyOnce | game.ts:16-27 | the pack has 36 cards; card (suit, level) sits at position 9·suit + level − 1; no card occurs twice and every card occurs exactly once |
| Cards.ShuffledPermutes | game.ts:29-36 | whatever the random draws, the shuffle returns a permutation of its input of the same length |
| Cards.Shuffle | game.ts:29-36 | the swap loop over a copied array returns exactly `Shuffled(cards, pick)`, a permutation of the input |
| Seqs.WithoutFacts | game.ts:51-53 | filtering out `x` leaves no `x`, keeps only elements of the input, and keeps every element other than `x` |
| Seqs.WithoutMultiset | game.ts:51-53 | filtering out `x` removes all its copies and changes no other multiplicity |
| Durak.Player.constructor | game.ts:57-61 | a new player has the given name and order, no cards and no flag set |
| Durak.Player.AddCard | game.ts:48-50 | the card is appended to the hand; no other field changes |
| Durak.Player.RemoveCard | game.ts:51-53 | the hand becomes the old hand without the card, in order; no other field changes |
| Rules.NewGame | game.ts:72-75 | construction fails exactly for fewer than two or more than four names, with the matching error, and otherwise seats one player per name |
| Durak.NewGame | game.ts:72-75 | `new Game(names)` as a method: an error exactly for a bad count; otherwise a fresh game whose state is `Rules.NewGame`'s |
| Durak.NewPlayers | game.ts:75 | one fresh player per name, in list order, player `i` with order `i`, empty hand and no flags |
| Durak.Game.constructor | game.ts:64-94 | the new game holds the shuffled pack as its stock and the suit of its first card as trump, has the given players, and equals `Rules.Start` |
| Durak.Game.Open | game.ts:76-93 | dealing, the lowest-trump scan and the flag writes take the fresh game to `Rules.Start` |
| Durak.Game.LowestTrumpHolder | game.ts:79-89 | the nested scan's result is `FirstAttacker` of the players' hands |
| Rules.FirstAttackerHoldsLowestTrump | game.ts:79-89 | when some hand holds a trump, the first attacker holds a trump no higher than any trump in any hand; when none does, it is the random fallback seat |
| Durak.Game.FirstAttack | game.ts:90-93 | the first attacker gets attacking and the turn, the seat `(order + 1) % n` gets defending, nothing else changes |
| Invariant.DealFacts | game.ts:76-78 | dealing keeps the stock's first card and all cards, sets no flags, and keeps orders |
| Invariant.StartDistinct | game.ts:65-78 | a new game dealt from the shuffled pack holds exactly the pack's cards, each once |
| Invariant.StartInv | game.ts:72-94 | a new game satisfies the invariant; its cards are exactly the stock it was dealt from; the first attacker holds the turn, the next seat defends, table and winners are empty |
| Durak.Game.GetNewCard | game.ts:95-98 | the last stock card, if any, moves to the end of the player's hand; an empty stock changes nothing |
| Rules.DrawNEffect | game.ts:95-98 | `k` draws move the last `min(k, |stock|)` stock cards, last card first, to the end of the hand |
| Durak.Game.GetFullHand | game.ts:120-125 | the loop of getNewCard calls has the effect of `Rules.FullHand` |
| Rules.FullHandEffect | game.ts:120-125 | getFullHand adds `min(max(0, 6 − |hand|), |stock|)` cards, keeps hand plus stock size, and leaves at least six cards or an empty stock |
| Rules.FullHandKeepsCards | game.ts:120-125 | refilling one hand neither makes nor loses a card |
| Rules.FindIsFirst | game.ts:99-104 | `find` returns the first player with the flag, and "undefined" exactly when no player has it |
| Durak.Game.AttackingPlayer | game.ts:99-101 | the result is the first attacking player's index, or the list length when there is none |
| Durak.Game.DefendingPlayer | game.ts:102-104 | the result is the first defending player's index, or the list length when there is none |
| Durak.Game.IsPossibleMove | game.ts:126-148 | true only with the turn and the card in hand; an attacker may play on an empty table or a level already there; a defender must beat the top card; others may not play |
| Rules.CanPlayCases | game.ts:126-148 | the same case analysis, in both directions, for the pure predicate |
| Rules.BeatsIsStrictOrder | game.ts:138-143 | beating is irreflexive, asymmetric and transitive; a trump beats any non-trump and no non-trump beats a trump |
| Durak.Game.Move | game.ts:105-119 | when `Rules.Move` refuses it answers `InvalidMove` and changes nothing; otherwise the game becomes `Rules.Move`'s state |
| Durak.Game.MakeMove | game.ts:106-115 | a legal move's writes produce `Rules.Move`'s state |
| Durak.Game.PlayCard | game.ts:107-108 | the card leaves the hand and is appended to the table; nothing else changes |
| Invariant.MoveUnderInv | game.ts:105-119 | under the invariant, move is defined and fails exactly when isPossibleMove is false, with `InvalidMove` |
| Invariant.MoveKeepsInv | game.ts:109-115 | a legal move keeps the invariant and the roles; the turn goes to the attacker after a defence, to an unbroken defender after an attack, and otherwise stays |
| Invariant.MoveHands | game.ts:107-108 | a legal move puts the card on the table, takes it out of the mover's hand and changes no other hand or the stock |
| Invariant.MoveKeepsCards | game.ts:105-119 | with no card twice, a legal move neither makes nor loses a card |
| Durak.Game.MissAttack | game.ts:191-198 | the game changes as `Rules.MissAttack` |
| Invariant.MissAttackShape | game.ts:191-198 | a defending caller's protection becomes broken and the attacker alone holds the turn; nothing else changes |
| Invariant.MissAttackKeepsInv | game.ts:191-198 | missAttack keeps the invariant, the hands, the table and the roles, and leaves the turn with the attacker |
| Rules.MissAttackIdempotent | game.ts:191-198 | calling missAttack twice has the effect of calling it once |
| Durak.Game.ChangePlayersTurn | game.ts:199-202 | every player loses the turn and the named one gets it; hands and other flags stay |
| Invariant.GiveTurnOnly | game.ts:199-202 | with orders equal to positions, exactly the named seat holds the turn afterwards, and no other field changes |
| Durak.Game.Bito | game.ts:149-190 | when `Rules.Bito` refuses (empty table or caller not attacking) it answers `InvalidBito` and changes nothing; otherwise the game becomes `Rules.Bito`'s state |
| Invariant.BitoUnderInv | game.ts:149-189 | under the invariant, bito fails exactly when the table is empty or the caller is not the attacker, with `InvalidBito` |
| Durak.Game.RotateRoles | game.ts:151-157 | the defender attacks and stops defending, the caller stops attacking, and the seat after the defender defends, in the source's order |
| Invariant.RotateRoles | game.ts:151-157 | under the invariant those writes make the old defender the attacker and the seat after it the defender; hands, turn and protection stay |
| Durak.Game.TakeTableCards | game.ts:159 | the defender's hand gains the table's cards in table order |
| Durak.Game.HandOverAttack | game.ts:160-167 | the seat after the defender attacks, the defender goes idle with its protection mended, and the seat after the new attacker defends |
| Durak.Game.TakeTable | game.ts:159-167 | the player list changes as `Rules.TakeTable` |
| Durak.Game.BrokenDefence | game.ts:158-172 | a broken defence changes the game as `Rules.Taken` |
| Durak.Game.HeldDefence | game.ts:173-183 | a held defence changes the game as `Rules.Held` |
| Durak.Game.RemovePlayer | game.ts:170 | the player leaves the list; orders stay distinct; the snapshots lose that player's seat |
| Durak.SeatsWithout | game.ts:170 | filtering a player out of the list is dropping its seat from the snapshots |
| Durak.DistinctWithout | game.ts:177-178 | filtering a player out keeps the others, adds nobody and keeps orders distinct |
| Durak.Game.ClearTable | game.ts:184 | the table is emptied; nothing else changes |
| Durak.Game.RefillHands | game.ts:186 | every player, in list order, gets getFullHand: the game changes as `Rules.RefillAll` |
| Invariant.RefillKeepsInv | game.ts:186 | the refill keeps the invariant and the roles, loses no card, and leaves every hand with six cards or the stock empty |
| Invariant.BitoHeldInv | game.ts:173-186 | after a held defence with nobody winning, the old defender attacks and holds the turn, the next seat defends, the table is empty, nobody's hand shrinks, and every hand is full or the stock is out; nobody's protection is broken |
| Invariant.BitoHeldWinners | game.ts:175-182 | a held defence records a pair when the stock and both hands are out, the attacker alone when only its hand is out, and nobody otherwise; the winners leave the player list |
| Invariant.BitoHeldCards | game.ts:173-186 | a held defence discards exactly the table's cards |
| Invariant.BitoHeldDistinct | game.ts:184 | discarding the table keeps every remaining card held once |
| Invariant.BitoTakenInv | game.ts:158-186 | after a broken defence with nobody winning, the seat after the defender attacks and holds the turn, the seat after it defends, the defender's hand gains the table, no hand shrinks, every hand is full or the stock is out, and the broken protection is mended |
| Invariant.BitoTakenWinners | game.ts:168-171 | a broken defence records the attacker as winner exactly when the stock and its hand are out, and the winner leaves the player list |
| Invariant.BitoTakenCards | game.ts:158-186 | a broken defence neither makes nor loses a card |

## Left out

- Display symbols of cards and suits: only suit and level take part in the game.
- `Math.random`: the shuffle's draws and the random first-attacker seat are parameters.
- `Player.move` and the `game` back-reference of `Player`: they only forward to `Game.move`.
- The `kingCard` field: nothing reads it; only its suit, `kingCardType`, is kept.
- The string `missAttack` returns: it is a constant whatever happens, so `Durak.Game.MissAttack` returns nothing.
- Invariant.MoveUnderInv, Invariant.MoveKeepsInv, Invariant.MissAttackShape, Invariant.MissAttackKeepsInv, Invariant.BitoUnderInv, Invariant.RotateRoles, Invariant.RefillKeepsInv, Invariant.BitoHeldInv, Invariant.BitoHeldWinners, Invariant.BitoHeldCards, Invariant.BitoHeldDistinct, Invariant.BitoTakenInv, Invariant.BitoTakenWinners, Invariant.BitoTakenCards: each assumes the invariant, which includes every seat's order being its list position. That stops holding once a winner leaves the list, so these lemmas cover play up to and including the trick of the first win and say nothing about later tricks of a three- or four-player game; after a removal `(order + 1) % players.length` may name a different seat or the same player.
- Cards are compared by value, not by reference; the pack holds each card once, so the two agree.
- That no card is held twice is kept outside the invariant, as `Distinct(AllCards(s))`: `Invariant.StartDistinct` proves it for a new game. `Rules.FullHandKeepsCards` and `Invariant.MoveKeepsCards` carry it through any refill and move; `Invariant.MissAttackKeepsInv`, `Invariant.BitoTakenCards` and `Invariant.BitoHeldDistinct` carry it through missAttack and bito only under the invariant, so only until the first winner leaves.
- Durak.Game.IsPossibleMove: a defender's move on an empty table reads `cardsOnTable[-1]` and then fails in the source; here it is a precondition.
- Durak.Game.Bito, Durak.Game.MissAttack, Durak.Game.Move: a call when no player defends (bito), attacks (missAttack), or is found to hand the turn to after a legal move (move, game.ts:110 and 112) dereferences `undefined` and throws in the source. In move the hand, table and turn flags have already changed by then; in missAttack the caller's protection (game.ts:192-193) and every player's turn (game.ts:200) have, and the throw comes at game.ts:201. Here it is a precondition.
- The source shuffles the pack in a field initialiser before it checks the player count; the shuffle copies the pack, so skipping it on the error path changes nothing observable.
- What happens to a match once fewer than two players remain: the source has no game-over result.
- Concurrency and I/O: the engine has none.

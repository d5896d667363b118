# Brawljack rules engine in Dafny

Brawljack is a two-sided blackjack duel between a player and a dealer AI.

- Each side has its own shuffled 52-card deck, a score limit of 20, 21 or 22, and a hand scored the blackjack way: Aces count 11, or 1 where needed.
- The loser of a round loses hit points equal to the round's damage. A game ends after 20 rounds or when a side reaches 0 of its 40 hit points.
- Between rounds, both sides pick loot from a weighted catalog of twelve item kinds, and each side holds at most three items.
- Items heal, shift scores, poison the opponent, cure poison, offer a choice of cards, cut or swap hands, change limits, or steal.
- The dealer plays by a fixed priority order, one action per tick, and loots by its own heuristics.

The project has one module per part of the program:

- `Types`: cards, statuses, winners, item kinds and items.
- `Deck` (`services/deckService.ts`): the deck, the Fisher-Yates shuffle and hand scoring. These are methods with loops, proved against specification functions.
- `Items` (`services/itemService.ts`): the catalog and the weighted loot draw.
- `Rules`, `Ai` and `Loot`: the rules of `App.tsx` as functions on a snapshot `Game` of all rule-relevant state, with lemmas stating what each handler promises. Every handler keeps one invariant, `Rules.Valid`:
  - hit points in 0..40 and at most 20 rounds;
  - non-negative poison stacks and limits in 20..22;
  - at most three items per inventory, each of a catalog kind (type and value as in the catalog, positive weight);
  - item ids unique across both inventories and the loot on offer.
- `App`: the component's state as a class `GameState`. Each handler is a method that updates the fields in place. Each is proved to give the state its rule function describes (`ensures State() == XStep(old(State()), ...)`) and to keep `Valid()`.

Inputs that the program draws at random are parameters, each bounded as the program's draw bounds it:

- the shuffle's swap indices;
- the loot draws, as integers in [0, total weight);
- the dealer's probability rolls, as booleans;
- the random replacement and steal slots, as naturals taken modulo the size.

Item ids are numbers handed out by a counter `nextId`.

`services/itemService.ts` lists 14 templates: three Heal tiers and one for each of the other eleven kinds. The weights total 133, or 139 when Antidote's weight rises to 18.

## Model

| member | source | states |
|---|---|---|
| Deck.RankValues | services/deckService.ts:3-16 | ranks 2..10 are valued at face, J/Q/K at 10 and A at 11, so every rank's value lies in 2..11 |
| Deck.SuitCards | services/deckService.ts:10-18 | one suit contributes exactly 13 cards |
| Deck.CardValue | services/deckService.ts:11-16 | the parseInt-then-override steps give the rank's value as `RankValue` defines it |
| Deck.CreateDeck | services/deckService.ts:5-21 | the nested loops build exactly the standard deck: suit after suit, ranks in order |
| Deck.SuitCardsNext | services/deckService.ts:10-17 | the inner loop's push extends the suit prefix by the next rank's card |
| Deck.DeckOfAt | services/deckService.ts:9-19 | card i of the deck over n suits is rank i % 13 of suit i / 13; the deck has 13·n cards |
| Deck.StandardDeckAt | services/deckService.ts:5-21 | the fresh deck has 52 cards; card i is suit i / 13, rank i % 13, at that rank's value, visible |
| Deck.StandardDeckLayout | services/deckService.ts:5-21 | card 13·s + k is rank k of suit s for all 4 suits × 13 ranks |
| Deck.StandardDeckDistinct | services/deckService.ts:5-21 | no two of the 52 cards share suit and rank, so each (suit, rank) pair occurs exactly once |
| Deck.StandardDeckValues | services/deckService.ts:11-17 | every card of the fresh deck is visible and worth 2..11 |
| Deck.RanksDistinct | services/deckService.ts:3 | the 13 rank labels are pairwise different |
| Deck.SwapAt | services/deckService.ts:27 | a swap keeps the length |
| Deck.SwapAtPermutes | services/deckService.ts:27 | a swap keeps the multiset of cards |
| Deck.FisherYates | services/deckService.ts:25-28 | the shuffle keeps the length |
| Deck.SwappedFrom | services/deckService.ts:23-30 | the fresh deck after the swaps at positions 51 down to i still has 52 cards |
| Deck.FisherYatesSwaps | services/deckService.ts:23-30 | finishing the shuffle of a fresh deck from any position gives the same deck as unfolding it from the last swap |
| Deck.FisherYatesPermutes | services/deckService.ts:23-30 | the shuffle is a permutation: same multiset of cards |
| Deck.ShuffleDeck | services/deckService.ts:23-30 | the in-place descending swap loop on a copy yields the Fisher-Yates result, a permutation of the same length; the input is a value and stays unchanged |
| Deck.ReductionsNeeded | services/deckService.ts:44-47 | the count is the fewest 10-point reductions bringing the sum to 21 or below |
| Deck.CalculateScore | services/deckService.ts:32-50 | the for-loop and the reduction while-loop compute `HandScore`: visible sum less 10 per reduced Ace, Aces reduced only as far as needed |
| Deck.HandScoreIsReduction | services/deckService.ts:36-47 | the score is the visible sum minus 10·k with 0 ≤ k ≤ the number of visible Aces |
| Deck.HandScoreStopsAt21 | services/deckService.ts:44-49 | a score above 21 means every Ace was reduced; any reduction leaves the score above 11 |
| Deck.HandScoreIsBest | services/deckService.ts:44-49 | among the totals the Aces allow, the score is the largest one not above 21 |
| Deck.HiddenCardIgnored | services/deckService.ts:37 | a hidden card at any position of the hand changes no score |
| Deck.HiddenCardCounts | services/deckService.ts:36-42 | a hidden card at any position adds nothing to the visible sum or the Ace count |
| Deck.SoftAceExamples | services/deckService.ts:32-50 | {A, 6} scores 17 and {A, A, 9} scores 21 |
| Deck.ElevenWithoutAceRank | services/deckService.ts:39-41 | an Ace is recognised by rank, not value: two 11-valued non-Aces score 22 |
| Items.CatalogFacts | services/itemService.ts:13-126 | 14 templates with positive weights and type-consistent values; Heal tiers 5/10/50 weighted 20/5/1 come first; Antidote is the one template weighted 12 at position 6 |
| Items.CatalogCoversTypes | services/itemService.ts:13-126 | every item kind has a template |
| Items.ActiveItems | services/itemService.ts:139-145 | same templates in the same order; Antidote weighs 18 when poisoned, every other weight is the catalog's |
| Items.ActiveUnpoisoned | services/itemService.ts:139-145 | unpoisoned, the draw uses the catalog's weights |
| Items.ActivePoisoned | services/itemService.ts:139-145 | poisoned, only Antidote changes, to floor(12 · 1.5) = 18 |
| Items.Cum | services/itemService.ts:147 | a running total of n positive weights is at least n |
| Items.CumMonotone | services/itemService.ts:147 | running totals strictly grow with the prefix |
| Items.CatalogCum | services/itemService.ts:13-126 | the running totals at Antidote are 68 and 80; all 14 weights total 133 |
| Items.CumUpdate | services/itemService.ts:139-147 | changing one weight shifts every later running total by the difference |
| Items.PickFrom | services/itemService.ts:153-159 | the selection loop picks the first template whose running total exceeds r |
| Items.Pick | services/itemService.ts:150-159 | for every r in [0, total weight) some template is selected |
| Items.PickInterval | services/itemService.ts:153-159 | template i is selected exactly when r lies in [Cum(i), Cum(i + 1)) |
| Items.CountPicksOverlap | services/itemService.ts:153-159 | the draws of [lo, hi) selecting template i are exactly those in its interval |
| Items.PickRegion | services/itemService.ts:147-159 | exactly `weight` of the integer draws select a template, so it is drawn with probability weight / total |
| Items.AntidoteOddsUnpoisoned | services/itemService.ts:139-159 | unpoisoned, total 133 and Antidote selected by 12 draws |
| Items.AntidoteOddsPoisoned | services/itemService.ts:139-159 | poisoned, total 139 and Antidote selected by 18 draws |
| Items.DrawTotalIsWeight | services/itemService.ts:147 | the total weight is 133, or 139 when poisoned |
| Items.DrawnOption | services/itemService.ts:161-170 | a drawn option is a catalog item with a positive weight and the given id |
| Items.LootOptions | services/itemService.ts:149-172 | one option per draw, in order, each a catalog item with its own id |
| Items.LootOptionsDrawn | services/itemService.ts:150-170 | option i copies type and value of the template whose interval holds draw i, with the adjusted weight used in the draw |
| Items.LootDuplicatesExample | services/itemService.ts:149-172 | draws are independent: the same draw twice yields two identical templates |
| Items.GenerateLootOptions | services/itemService.ts:135-175 | the decrement-and-compare loops produce exactly `count` options, option i being the template selected by draw i |
| Rules.ShuffledDeck | App.tsx:185-186 | a fresh shuffled deck has 52 cards |
| Rules.ShuffledDeckPermutes | App.tsx:185-186 | a fresh shuffled deck holds the 52 standard cards |
| Rules.FindIndex | App.tsx:606 | findIndex: a satisfying position, with none before it; -1 only when none satisfies |
| Rules.Find | App.tsx:809 | find: nothing exactly when no element satisfies; otherwise a satisfying member |
| Rules.RemoveAt | App.tsx:550 | filtering out index k keeps the other slots in order |
| Rules.RemoveById | App.tsx:568 | filtering by id never grows the inventory |
| Rules.RemoveByIdMembers | App.tsx:568 | what stays after the id filter comes from the inventory and has another id |
| Rules.RemoveByIdAt | App.tsx:564-575 | with distinct ids, removing the used item's id removes exactly its slot and keeps the order of the rest |
| Rules.RemoveByIdAbsent | App.tsx:568 | filtering an absent id changes nothing |
| Rules.IdsAppend | App.tsx:551 | appending adds exactly the new item's id |
| Rules.AppendOk | App.tsx:551 | pushing a fresh catalog item keeps an inventory well formed |
| Rules.RemoveAtOk | App.tsx:550 | removing a slot keeps an inventory well formed and drops exactly that id |
| Rules.RemoveAtKeepsOk | App.tsx:550 | removing a slot keeps ids distinct and items from the catalog |
| Rules.RemoveAtIds | App.tsx:550 | removing a slot drops exactly its id |
| Rules.ReplaceOk | App.tsx:814 | overwriting a slot with a fresh item keeps an inventory well formed |
| Rules.IdsBelowMono | App.tsx:807-821 | raising the id counter keeps ids below it |
| Rules.InitialValid | App.tsx:10-12 | the initial state satisfies the invariant |
| Rules.StealTarget | App.tsx:525-546 | the Thief's target is a slot of the opposing inventory |
| Rules.PoisonTickFacts | App.tsx:145-176 | each side loses its own stacks, floored at 0; stacks stay; the game ends iff a side with hit points reaches 0, the dealer winning when the player is at 0; invariant kept |
| Rules.DealFacts | App.tsx:178-222 | unless poison ends the game, each hand is the top two cards of a fresh deck, 50 cards stay and together they are the 52; modifiers 0, stood flags false, PlayerTurn; ignorePoison skips the tick; inventories kept |
| Rules.DealHandsFacts | App.tsx:185-221 | the deal proper: fresh hands and decks for both, PlayerTurn, scores unchanged, invariant kept |
| Rules.DealtSideFacts | App.tsx:185-204 | a dealt side's hand is the deck's last two cards, its deck the other 50 |
| Rules.TopTwoSplit | App.tsx:189-192 | popping two cards keeps the cards |
| Rules.StartGameFacts | App.tsx:224-236 | 40/40 hit points, round 0, empty inventories, no poison, limits 21, two cards each, PlayerTurn, invariant kept |
| Rules.RoundWinnerRules | App.tsx:739-749 | dealer wins iff the player busts or trails a non-busted dealer; player wins iff within the limit and the dealer busts or trails; push iff equal non-bust scores; a double bust goes to the dealer |
| Rules.RoundDamageRules | App.tsx:754-759 | damage is non-negative and at most the larger score; the winner's own score when only the loser busted; the difference otherwise |
| Rules.RoundExamples | App.tsx:739-759 | worked rounds: bust 25 vs 18 costs 18; 20 vs 17 costs 3; 19 vs 19 pushes |
| Rules.FreshLootOk | App.tsx:801 | freshly drawn loot has distinct new ids above every earlier id |
| Rules.ApartBelow | App.tsx:801 | ids below the counter never clash with fresh ones |
| Rules.EndRoundFacts | App.tsx:753-805 | rounds + 1; the loser loses the damage, floored at 0; a push costs nothing; hands kept; GameOver iff 20 rounds or a side at 0, else LootSelection with three fresh options |
| Rules.EndRoundValid | App.tsx:753-805 | endRound keeps the invariant |
| Rules.HitFacts | App.tsx:371-394 | empty deck: no change; else the deck's last card joins the hand; then BustRecovery iff over the limit holding a ScoreModifier or Thief; a lost round when over without one; DealerTurn within the limit |
| Rules.StandFacts | App.tsx:396-406 | standing in BustRecovery while still over the limit loses the round; otherwise stood and DealerTurn |
| Rules.ChooseCardFacts | App.tsx:578-582 | the chosen card joins the hand; PlayerTurn; choices cleared |
| Rules.ConfigureLimitFacts | App.tsx:584-589 | only the chosen side's limit changes; PlayerTurn |
| Rules.EffectKeepsValid | App.tsx:416-523 | every effect but Thief's leaves inventories, loot and round count alone and keeps the invariant |
| Rules.EffectRules | App.tsx:417-523 | per effect: Heal caps at 40, ScoreModifier and ScoreBoost shift the score, Poison, Antidote, Sabotage and HandSwap as listed under the lemma; HandSwap clears the stood flag of the side receiving the swapped-in hand, and the dealer's swap turns DealerTurn back to PlayerTurn for a stood player; in BustRecovery a ScoreModifier returns to PlayerTurn iff the score is then within the limit |
| Rules.EffectPoisonStacks | App.tsx:417-523 | poison stacks never shrink except by an Antidote; effects other than Poison and Antidote leave both sides' stacks unchanged |
| Rules.AppendThenRemove | App.tsx:551-568 | removing a slot before an appended item keeps that item last |
| Rules.UseItemInventories | App.tsx:408-576 | a blocked use in BustRecovery changes nothing; otherwise the used item leaves the user's inventory with order kept; a Thief also moves its target to the user's end; the two inventories together hold one item fewer |
| Rules.PlainUse | App.tsx:564-575 | a non-Thief use removes exactly the used slot, leaves the opponent's inventory alone and keeps the invariant |
| Rules.ThiefUse | App.tsx:524-575 | against an empty inventory only the Thief goes; else the target moves to the user's end |
| Rules.StolenValid | App.tsx:548-557 | the inventories after a steal keep the invariant |
| Rules.StealTargetRules | App.tsx:525-546 | the player steals the random slot; the dealer takes the first value-50 Heal, else the first Heal, else the random slot |
| Ai.EarlyItem | App.tsx:605-667 | an early item use is a slot of the dealer's inventory |
| Ai.StandOrHit | App.tsx:687-715 | an item used at stand or hit is a slot of the dealer's inventory |
| Ai.Decide | App.tsx:597-715 | the tick's item use is a slot of the dealer's inventory |
| Ai.ShouldStandRules | App.tsx:671-685 | the own limit always stands; 18+ stands unless a held ScoreModifier at 17..19 hits on the roll; below 16 and the limit never stands |
| Ai.EarlyItemRules | App.tsx:605-667 | an early use is the first slot of its type and its condition holds |
| Ai.StandOrHitRules | App.tsx:687-715 | HandSwap, Sabotage and ChoiceCard are used only under their conditions, first slot of the type |
| Ai.DecideItemRules | App.tsx:591-733 | every dealer item use is the first slot of its type for the reason the priority order names; SeeNext3 and Spy are never used |
| Ai.UseSlot | App.tsx:687-715 | a found slot meeting its condition is a valid choice |
| Ai.FirstSlot | App.tsx:605-661 | the slot an item step takes is the first of its type |
| Ai.FindIndexFirst | App.tsx:606 | a slot found by type is the first of that type |
| Ai.DecidePriority | App.tsx:597-667 | a stood dealer resolves; otherwise each item step is taken, from the first slot of its type, as soon as its item is held, its condition holds and no earlier step applies: Thief, ScoreLimitChange, Poison, Antidote, Heal, ScoreBoost, ScoreModifier; when none applies the stand or hit logic decides |
| Ai.DecideStandOrDraw | App.tsx:669-723 | with no item step applying: standing, a HandSwap comes first when the player is ahead, then a Sabotage; hitting, a ChoiceCard; the dealer stands exactly when standing with neither of those usable and draws exactly when hitting without a ChoiceCard; a draw happens only below the limit; with no items, reaching the limit is a stand |
| Ai.AiTickFacts | App.tsx:591-733 | one action per tick: a use consumes one item overall; a stand sets stood and resolves the round if the player stood; a draw moves the deck's last card to the hand; invariant kept |
| Ai.AiTickUse | App.tsx:605-715 | an item tick removes one item across both inventories and keeps the invariant |
| Ai.AiTickDraw | App.tsx:717-723 | a draw tick moves the deck's last card to the dealer's hand and keeps the invariant |
| Ai.AiTickResolve | App.tsx:597-600 | a stand or resolve tick ends the round when the player stood, else hands over to PlayerTurn |
| Ai.ResolutionFacts | App.tsx:704-708 | with the player stood the round is counted and ends in loot or game over; else only the status becomes PlayerTurn |
| Loot.Filter | App.tsx:248 | filter keeps exactly the satisfying elements, never more |
| Loot.SetAt | App.tsx:262 | index assignment replaces inside the array and appends past its end |
| Loot.Insert | App.tsx:320 | insertion into a descending sequence stays descending and adds exactly one element |
| Loot.InsertBehindHead | App.tsx:320 | the heaviest head stays in front of a sorted insertion |
| Loot.SortByWeight | App.tsx:320 | the weight sort is descending and a permutation |
| Loot.SortKeepsMembers | App.tsx:320 | the sorted options are the options |
| Loot.Candidate | App.tsx:320-332 | the candidate is one of the sorted options |
| Loot.AiLootChoice | App.tsx:282-350 | the dealer pushes only with room, overwrites only an existing slot, and takes only an offered item |
| Loot.AiLootMove | App.tsx:238-353 | processAiLoot pushes only when under three items and otherwise overwrites a slot |
| Loot.MoveOk | App.tsx:334-350 | a loot move keeps an inventory well formed, within three items, adding only the moved id |
| Loot.ForcedOk | App.tsx:254-272 | the forced Thief and super potion keep the offer within the catalog, free of banned types, with fresh ids |
| Loot.ForcedItemOk | App.tsx:260-270 | writing a found item under a fresh id into a slot keeps the offer well formed |
| Loot.OfferFacts | App.tsx:243-280 | the dealer's offer has no SeeNext3 or Spy and no limited type the dealer already holds |
| Loot.AiLootMoveRules | App.tsx:243-350 | the item the dealer takes is never SeeNext3 or Spy, never a second limited type, and has a fresh id |
| Loot.SuperPotionTaken | App.tsx:282-304 | an offered super potion is always taken (pushed when there is room); an empty offer changes nothing |
| Loot.CandidateInSorted | App.tsx:320-332 | the candidate in the sorted options: an Antidote when poisoned; else the heaviest priority item; else the heaviest |
| Loot.CandidateRules | App.tsx:320-332 | the same, stated over the unsorted offer |
| Loot.HoldsSame | App.tsx:320-324 | sorting changes no "some item of this kind" test |
| Loot.ForceSuperHolds | App.tsx:267-272 | step B puts a super potion into the offer whenever offer or fallback holds one |
| Loot.UnderLimitKeepsSuper | App.tsx:275-280 | the unique-limit filter never removes a super potion |
| Loot.ForcedSuperTaken | App.tsx:267-304 | at 10 hit points or less, on the roll, with a super potion available, the dealer ends up taking one |
| Loot.DealerInventoryValid | App.tsx:238-353 | a dealer inventory with only old or fresh ids keeps the invariant |
| Loot.ProcessAiLootFacts | App.tsx:238-353 | only the dealer's inventory and the id counter change; at most three items; new ids are fresh; invariant kept |
| Loot.ProcessAiLootValid | App.tsx:238-353 | processAiLoot keeps the invariant |
| Loot.DealerMoveValid | App.tsx:334-350 | an allowed move with a fresh item keeps the invariant |
| Loot.StartNextRoundFacts | App.tsx:355-362 | a side at 0 restarts the game; otherwise the dealer loots, the player's inventory stays and the round is dealt or poison ends it |
| Loot.PlayerLootMoveRules | App.tsx:807-818 | no change iff no selection, an unknown id, or a full inventory without a slot; pushes iff there is room; else overwrites the chosen slot with the selected offer |
| Loot.ConfirmLootFacts | App.tsx:807-821 | the offer is cleared; a restart empties both inventories; otherwise the player's pick lands and the dealer's move sees the pre-pick inventory; invariant kept |
| Loot.ConfirmLootValid | App.tsx:807-821 | confirmLoot keeps the invariant |
| Loot.PickedValid | App.tsx:807-816 | the player's pick written after the hand-over keeps the invariant |
| App.NewShuffledDeck | App.tsx:185-186 | shuffleDeck(createDeck()) is the specified shuffled deck of 52 |
| App.DealSide | App.tsx:185-204 | one side's deal is `DealtSide` |
| App.ChoiceCardDraw | App.tsx:465-470 | choices are the first three cards of a fresh shuffle and the dealer's card its last |
| App.GameState.constructor | App.tsx:10-12 | the initial state, which satisfies the invariant |
| App.GameState.ApplyPoison | App.tsx:145-176 | new state is `PoisonTick`; the result is `PoisonKills`; invariant kept |
| App.GameState.DealRound | App.tsx:178-222 | new state is `DealRoundStep`; invariant kept |
| App.GameState.DealHands | App.tsx:185-221 | new state is `Rules.DealHands` |
| App.GameState.DealPlayer | App.tsx:185-199 | only the player's side changes, to its dealt side |
| App.GameState.DealDealer | App.tsx:186-200 | only the dealer's side changes, to its dealt side |
| App.GameState.StartGame | App.tsx:224-236 | new state is `StartGameStep`; invariant kept |
| App.GameState.EndRound | App.tsx:753-805 | new state is `EndRoundStep`; invariant kept |
| App.GameState.OfferLoot | App.tsx:801-802 | three fresh options on offer, counter + 3, LootSelection, nothing else changes |
| App.GameState.RoundDamageNow | App.tsx:754-759 | the damage is `EndDamage` of the state |
| App.GameState.EndRoundCheck | App.tsx:739-749 | new state is `EndRoundCheckStep`; invariant kept |
| App.GameState.Hit | App.tsx:371-394 | new state is `HitStep`; invariant kept |
| App.GameState.CheckHitCard | App.tsx:381-393 | new state is `AfterHitCard`; invariant kept |
| App.GameState.Stand | App.tsx:396-406 | new state is `StandStep`; invariant kept |
| App.GameState.UseItem | App.tsx:408-576 | new state is `UseItemStep`; invariant kept |
| App.GameState.ApplyEffect | App.tsx:416-562 | new state is `ItemEffect` |
| App.GameState.UseHeal | App.tsx:417-426 | new state is `ItemEffect` for a Heal |
| App.GameState.UseScoreModifier | App.tsx:427-437 | new state is `ItemEffect` for a ScoreModifier |
| App.GameState.UseScoreBoost | App.tsx:438-447 | new state is `ItemEffect` for a ScoreBoost |
| App.GameState.UsePoison | App.tsx:448-458 | new state is `ItemEffect` for a Poison |
| App.GameState.UseAntidote | App.tsx:459-462 | new state is `ItemEffect` for an Antidote |
| App.GameState.UseChoiceCard | App.tsx:463-474 | new state is `ItemEffect` for a ChoiceCard |
| App.GameState.UseSabotage | App.tsx:475-480 | new state is `ItemEffect` for a Sabotage |
| App.GameState.UseHandSwap | App.tsx:481-504 | new state is `ItemEffect` for a HandSwap |
| App.GameState.UseScoreLimitChange | App.tsx:513-523 | new state is `ItemEffect` for a ScoreLimitChange |
| App.GameState.UseThief | App.tsx:524-561 | new state is `ItemEffect` for a Thief |
| App.GameState.ChooseRandomCard | App.tsx:578-582 | new state is `ChooseCardStep`; invariant kept |
| App.GameState.ConfigureLimit | App.tsx:584-589 | new state is `ConfigureLimitStep`; invariant kept |
| App.GameState.AiTick | App.tsx:591-733 | the action is `Ai.Decide`; new state is `Ai.AiTickStep`; invariant kept |
| App.GameState.Resolution | App.tsx:704-708 | new state is `Ai.Resolution`; invariant kept |
| App.GameState.DealerDrawCard | App.tsx:717-732 | new state is `Ai.DealerDraw`; invariant kept |
| App.GameState.ProcessAiLoot | App.tsx:238-353 | new state is `Loot.ProcessAiLootStep`; invariant kept |
| App.GameState.ApplyDealerMove | App.tsx:334-351 | new state is `Loot.DealerMoveApplied` |
| App.GameState.DealerLootMove | App.tsx:243-350 | the move is `Loot.AiLootMove` of the state |
| App.GameState.StartNextRound | App.tsx:355-362 | new state is `Loot.StartNextRoundStep`; invariant kept |
| App.GameState.PickedInventory | App.tsx:808-816 | the picked inventory is the player's loot move applied |
| App.GameState.ConfirmLoot | App.tsx:807-821 | new state is `Loot.ConfirmLootStep`; invariant kept |
| App.GameState.HandOver | App.tsx:819-820 | new state is `Loot.StartNextRoundStep` with the offer cleared |

## Left out

- Rendering (the JSX of `App.tsx`, `components/`), overlays, flashes, toasts, animations and the game log: they show state and change no rule.
- `services/geminiService.ts` (network taunts) and `services/translations.ts`: I/O and strings. Item names, descriptions and icons are not modelled.
- Timers and awaits (HandSwap's delay, the AI's thinking pause, endRound's 2.5 s timeout) take no time. Their state changes are applied in order, so RoundOver is passed through at once.
- React scheduling (`useEffect` re-runs, `setTurnTrigger`, refs versus stale closures) is not modelled. The game is one sequential state and the dealer's tick is called explicitly. One stale read is kept: the dealer's loot move sees the player's inventory from before the player's pick.
- `Date.now()`/`Math.random()` string ids are replaced by the counter `nextId`. The unused `tempOptions` draw in processAiLoot (App.tsx:256) has no effect and is left out.
- Math.random() values are parameters:
  - a loot draw is an integer in [0, total); since every running total is an integer, a real draw selects the same template as its floor;
  - `Math.floor(Math.random() * n)` is a natural taken modulo n.
- discardLoot (App.tsx:364-369) is ConfirmLoot with no selection.
- The SeeNext3/Spy viewing statuses are entered but their dialogs are not.
- Deck.ShuffleDeck: the shuffle's randomness (uniformity over permutations) is not stated; only its swaps and the permutation property are.
- Loot.SortByWeight: its contract states order and permutation but not stability. The definition inserts each option ahead of the later options of equal weight, so ties keep their offer order as JavaScript's stable sort does. No lemma states this.

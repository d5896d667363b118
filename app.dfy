/** The App component's game state and its handlers. Each handler updates
    the fields in place, as the component's state setters do, and is proved
    to produce the state its rule in Rules, Ai or Loot describes; the
    invariant Rules.Valid holds before and after every handler. */
module App {
  import opened Types
  import opened Rules
  import Deck
  import Items
  import Ai
  import Loot

  /** shuffleDeck(createDeck()) with the given swap indices. */
  method NewShuffledDeck(js: seq<int>) returns (d: seq<Card>)
    requires Deck.ValidSwaps(js, 52)
    ensures d == ShuffledDeck(js) && |d| == 52
  {
    var deck := Deck.CreateDeck();
    Deck.StandardDeckAt(0);
    d := Deck.ShuffleDeck(deck, js);
    Deck.FisherYatesSwaps(js, 52);
  }

  /** One side's part of dealRound: a fresh shuffled deck, two cards popped
      off its end into a new hand, modifier and stood flag reset. */
  method DealSide(c: Combatant, js: seq<int>) returns (c1: Combatant)
    requires Deck.ValidSwaps(js, 52)
    ensures c1 == DealtSide(c, js)
  {
    var deck := NewShuffledDeck(js);
    var card1 := deck[51];
    var card2 := deck[50];
    c1 := c.(hand := [card1, card2], deck := deck[..50], modifier := 0, stood := false);
  }

  /** The deck a ChoiceCard shuffles: its first three cards are the player's
      choices, its last the card the dealer draws. */
  method ChoiceCardDraw(js: seq<int>) returns (choices: seq<Card>, drawn: Card)
    requires Deck.ValidSwaps(js, 52)
    ensures choices == ShuffledDeck(js)[..3] && drawn == ShuffledDeck(js)[51]
  {
    var shuffled := NewShuffledDeck(js);
    choices := shuffled[..3];
    drawn := shuffled[51];
  }

  class GameState {
    var status: GameStatus
    var winner: Winner
    var lastDamage: int
    var scores: ScoreState
    /** Hand, deck, poison stacks, score modifier, score limit, stood flag and
        inventory of each side. */
    var player: Combatant
    var dealer: Combatant
    var lootOptions: seq<InventoryItem>
    var randomChoices: seq<Card>
    /** The next unused item id. */
    var nextId: nat

    /** The fields as one value. */
    function State(): Game
      reads this
    {
      Game(status, winner, lastDamage, scores, player, dealer, lootOptions, randomChoices, nextId)
    }

    ghost predicate Valid()
      reads this
    {
      Rules.Valid(State())
    }

    /** The state hooks' initial values. */
    constructor ()
      ensures State() == InitialGame() && Valid()
    {
      status := Idle;
      winner := None;
      lastDamage := 0;
      scores := ScoreState(INITIAL_HP, INITIAL_HP, 0);
      player := NewCombatant();
      dealer := NewCombatant();
      lootOptions := [];
      randomChoices := [];
      nextId := 0;
      new;
      InitialValid();
    }

    /** applyPoison: returns whether the tick ended the game. */
    method ApplyPoison() returns (gameOver: bool)
      modifies this
      requires Valid()
      ensures State() == PoisonTick(old(State()))
      ensures gameOver == PoisonKills(old(State()))
      ensures Valid()
    {
      ghost var g0 := State();
      PoisonTickFacts(g0);
      var pDmg := player.poison;
      var dDmg := dealer.poison;
      gameOver := false;
      if pDmg > 0 || dDmg > 0 {
        var nextPlayerHp := Max(0, scores.playerHp - pDmg);
        var nextDealerHp := Max(0, scores.dealerHp - dDmg);
        scores := scores.(playerHp := nextPlayerHp, dealerHp := nextDealerHp);
        if nextPlayerHp == 0 || nextDealerHp == 0 {
          winner := if nextPlayerHp == 0 then Dealer else Player;
          status := GameOver;
          gameOver := true;
        }
      }
    }

    /** dealRound: both decks rebuilt and reshuffled, two cards popped for
        each side (player first). */
    method DealRound(ignorePoison: bool, pSwaps: seq<int>, dSwaps: seq<int>)
      modifies this
      requires Valid() && scores.roundsPlayed < MAX_ROUNDS
      requires Deck.ValidSwaps(pSwaps, 52) && Deck.ValidSwaps(dSwaps, 52)
      ensures State() == DealRoundStep(old(State()), ignorePoison, pSwaps, dSwaps)
      ensures Valid()
    {
      ghost var g0 := State();
      DealFacts(g0, ignorePoison, pSwaps, dSwaps);
      if !ignorePoison {
        var over := ApplyPoison();
        if over {
          return;
        }
      }
      ghost var g1 := State();
      assert DealRoundStep(g0, ignorePoison, pSwaps, dSwaps) == Rules.DealHands(g1, pSwaps, dSwaps);
      DealHands(pSwaps, dSwaps);
    }

    /** The deal itself, after the poison tick. */
    method DealHands(pSwaps: seq<int>, dSwaps: seq<int>)
      modifies this
      requires Deck.ValidSwaps(pSwaps, 52) && Deck.ValidSwaps(dSwaps, 52)
      ensures State() == Rules.DealHands(old(State()), pSwaps, dSwaps)
    {
      ghost var g0 := State();
      DealPlayer(pSwaps);
      DealDealer(dSwaps);
      ghost var g2 := State();
      assert g2 == g0.(player := DealtSide(g0.player, pSwaps), dealer := DealtSide(g0.dealer, dSwaps));
      winner, lastDamage, status := None, 0, PlayerTurn;
      assert State() == g2.(winner := None, lastDamage := 0, status := PlayerTurn);
    }

    /** The player's fresh deck and first two cards. */
    method DealPlayer(js: seq<int>)
      modifies this
      requires Deck.ValidSwaps(js, 52)
      ensures State() == old(State()).(player := DealtSide(old(player), js))
    {
      player := DealSide(player, js);
    }

    /** The dealer's fresh deck and first two cards. */
    method DealDealer(js: seq<int>)
      modifies this
      requires Deck.ValidSwaps(js, 52)
      ensures State() == old(State()).(dealer := DealtSide(old(dealer), js))
    {
      dealer := DealSide(dealer, js);
    }

    /** startGame. */
    method StartGame(pSwaps: seq<int>, dSwaps: seq<int>)
      modifies this
      requires Valid()
      requires Deck.ValidSwaps(pSwaps, 52) && Deck.ValidSwaps(dSwaps, 52)
      ensures State() == StartGameStep(old(State()), pSwaps, dSwaps)
      ensures Valid()
    {
      scores := ScoreState(INITIAL_HP, INITIAL_HP, 0);
      player := player.(inventory := [], poison := 0, limit := 21);
      dealer := dealer.(inventory := [], poison := 0, limit := 21);
      DealRound(true, pSwaps, dSwaps);
    }

    /** endRound with the hands in the state; the loot options are drawn
        with `loot` and take the ids nextId .. nextId + 2. */
    method EndRound(w: Winner, loot: seq<int>)
      modifies this
      requires Valid() && scores.roundsPlayed < MAX_ROUNDS
      requires LootDrawsOk(loot, player.poison > 0)
      ensures State() == EndRoundStep(old(State()), w, loot)
      ensures Valid()
    {
      ghost var g0 := State();
      EndRoundValid(g0, w, loot);
      var damage := RoundDamageNow();
      var newScores := scores.(roundsPlayed := scores.roundsPlayed + 1);
      if w == Player {
        newScores := newScores.(dealerHp := Max(0, newScores.dealerHp - damage));
      } else if w == Dealer {
        newScores := newScores.(playerHp := Max(0, newScores.playerHp - damage));
      }
      assert newScores == RoundScores(scores, w, damage);
      lastDamage := damage;
      scores := newScores;
      winner := w;
      status := RoundOver;
      ghost var g1 := State();
      assert g1 == g0.(lastDamage := damage, scores := newScores, winner := w, status := RoundOver);
      if newScores.roundsPlayed >= MAX_ROUNDS || newScores.playerHp <= 0 || newScores.dealerHp <= 0 {
        status := GameOver;
      } else {
        OfferLoot(loot);
      }
    }

    /** The three loot options of a round that did not end the game. */
    method OfferLoot(loot: seq<int>)
      modifies this
      requires LootDrawsOk(loot, player.poison > 0)
      ensures State() == old(State()).(lootOptions := Items.LootOptions(old(player.poison) > 0, loot, old(nextId)),
                                       nextId := old(nextId) + 3, status := LootSelection)
    {
      var options := Items.GenerateLootOptions(3, player.poison > 0, loot, nextId);
      lootOptions := options;
      nextId := nextId + 3;
      status := LootSelection;
    }

    /** The damage endRound computes from the two hands. */
    method RoundDamageNow() returns (damage: int)
      ensures damage == EndDamage(State())
    {
      var pHand := Deck.CalculateScore(player.hand);
      var dHand := Deck.CalculateScore(dealer.hand);
      var pScore := Max(0, pHand - player.modifier);
      var dScore := Max(0, dHand - dealer.modifier);
      damage := Abs(pScore - dScore);
      if pScore > player.limit && dScore <= dealer.limit {
        damage := dScore;
      } else if dScore > dealer.limit && pScore <= player.limit {
        damage := pScore;
      }
    }

    /** endRoundCheck. */
    method EndRoundCheck(loot: seq<int>)
      modifies this
      requires Valid() && scores.roundsPlayed < MAX_ROUNDS
      requires LootDrawsOk(loot, player.poison > 0)
      ensures State() == EndRoundCheckStep(old(State()), loot)
      ensures Valid()
    {
      var pHand := Deck.CalculateScore(player.hand);
      var dHand := Deck.CalculateScore(dealer.hand);
      var pScore := pHand - player.modifier;
      var dScore := dHand - dealer.modifier;
      var w := Push;
      if pScore > player.limit {
        w := Dealer;
      } else if dScore > dealer.limit {
        w := Player;
      } else if pScore > dScore {
        w := Player;
      } else if dScore > pScore {
        w := Dealer;
      }
      EndRound(w, loot);
    }

    /** handleHit. */
    method Hit(loot: seq<int>)
      modifies this
      requires Valid() && status == PlayerTurn
      requires LootDrawsOk(loot, player.poison > 0)
      ensures State() == HitStep(old(State()), loot)
      ensures Valid()
    {
      var currentDeck := player.deck;
      if |currentDeck| == 0 {
        return;
      }
      var newCard := currentDeck[|currentDeck| - 1];
      currentDeck := currentDeck[..|currentDeck| - 1];
      player := player.(deck := currentDeck, hand := player.hand + [newCard]);
      CheckHitCard(loot);
    }

    /** The score check after the player's new card. */
    method CheckHitCard(loot: seq<int>)
      modifies this
      requires Valid() && status != GameOver
      requires LootDrawsOk(loot, player.poison > 0)
      ensures State() == AfterHitCard(old(State()), loot)
      ensures Valid()
    {
      var handScore := Deck.CalculateScore(player.hand);
      var score := handScore - player.modifier;
      if score > player.limit {
        var hasModifier := Holds(player.inventory, OfType(ScoreModifier));
        var hasThief := Holds(player.inventory, OfType(Thief));
        if hasModifier || hasThief {
          status := BustRecovery;
        } else {
          EndRound(Dealer, loot);
        }
      } else {
        status := DealerTurn;
      }
    }

    /** handleStand. */
    method Stand(loot: seq<int>)
      modifies this
      requires Valid() && (status == PlayerTurn || status == BustRecovery)
      requires LootDrawsOk(loot, player.poison > 0)
      ensures State() == StandStep(old(State()), loot)
      ensures Valid()
    {
      var handScore := Deck.CalculateScore(player.hand);
      var score := handScore - player.modifier;
      if status == BustRecovery && score > player.limit {
        EndRound(Dealer, loot);
        return;
      }
      player := player.(stood := true);
      status := DealerTurn;
    }

    /** handleUseItem for slot `index` of the user's inventory. */
    method UseItem(isPlayer: bool, index: nat, r: ItemRolls)
      modifies this
      requires Valid() && ItemTurn(State(), isPlayer) && ItemRollsOk(r)
      requires index < |Side(State(), isPlayer).inventory|
      ensures State() == UseItemStep(old(State()), isPlayer, index, r)
      ensures Valid()
    {
      ghost var g0 := State();
      UseItemInventories(g0, isPlayer, index, r);
      var item := if isPlayer then player.inventory[index] else dealer.inventory[index];
      if status == BustRecovery && item.itemType != ScoreModifier && item.itemType != Thief {
        return;
      }
      ApplyEffect(isPlayer, item, r);
      if isPlayer {
        player := player.(inventory := RemoveById(player.inventory, item.id));
      } else {
        dealer := dealer.(inventory := RemoveById(dealer.inventory, item.id));
      }
    }

    /** The switch of handleUseItem. */
    method ApplyEffect(isPlayer: bool, item: InventoryItem, r: ItemRolls)
      modifies this
      requires ItemRollsOk(r)
      ensures State() == ItemEffect(old(State()), isPlayer, item, r)
    {
      match item.itemType {
        case Heal => UseHeal(isPlayer, item, r);
        case ScoreModifier => UseScoreModifier(isPlayer, item, r);
        case ScoreBoost => UseScoreBoost(isPlayer, item, r);
        case Poison => UsePoison(isPlayer, item, r);
        case Antidote => UseAntidote(isPlayer, item, r);
        case ChoiceCard => UseChoiceCard(isPlayer, item, r);
        case Sabotage => UseSabotage(isPlayer, item, r);
        case HandSwap => UseHandSwap(isPlayer, item, r);
        case SeeNext3 =>
          if isPlayer {
            status := ViewingDeck;
          }
        case Spy =>
          if isPlayer {
            status := Spying;
          }
        case ScoreLimitChange => UseScoreLimitChange(isPlayer, item, r);
        case Thief => UseThief(isPlayer, item, r);
      }
    }

    method UseHeal(isPlayer: bool, item: InventoryItem, r: ItemRolls)
      modifies this
      requires ItemRollsOk(r) && item.itemType == Heal
      ensures State() == ItemEffect(old(State()), isPlayer, item, r)
    {
      if isPlayer {
        scores := scores.(playerHp := Min(INITIAL_HP, scores.playerHp + item.value));
      } else {
        scores := scores.(dealerHp := Min(INITIAL_HP, scores.dealerHp + item.value));
      }
    }

    method UseScoreModifier(isPlayer: bool, item: InventoryItem, r: ItemRolls)
      modifies this
      requires ItemRollsOk(r) && item.itemType == ScoreModifier
      ensures State() == ItemEffect(old(State()), isPlayer, item, r)
    {
      if isPlayer {
        var handScore := Deck.CalculateScore(player.hand);
        var fixedNow := handScore - (player.modifier + item.value) <= player.limit;
        player := player.(modifier := player.modifier + item.value);
        if status == BustRecovery && fixedNow {
          status := PlayerTurn;
        }
      } else {
        dealer := dealer.(modifier := dealer.modifier + item.value);
      }
    }

    method UseScoreBoost(isPlayer: bool, item: InventoryItem, r: ItemRolls)
      modifies this
      requires ItemRollsOk(r) && item.itemType == ScoreBoost
      ensures State() == ItemEffect(old(State()), isPlayer, item, r)
    {
      if isPlayer {
        player := player.(modifier := player.modifier - item.value);
      } else {
        dealer := dealer.(modifier := dealer.modifier - item.value);
      }
    }

    method UsePoison(isPlayer: bool, item: InventoryItem, r: ItemRolls)
      modifies this
      requires ItemRollsOk(r) && item.itemType == Poison
      ensures State() == ItemEffect(old(State()), isPlayer, item, r)
    {
      if isPlayer {
        dealer := dealer.(poison := dealer.poison + item.value);
      } else {
        player := player.(poison := player.poison + item.value);
      }
    }

    method UseAntidote(isPlayer: bool, item: InventoryItem, r: ItemRolls)
      modifies this
      requires ItemRollsOk(r) && item.itemType == Antidote
      ensures State() == ItemEffect(old(State()), isPlayer, item, r)
    {
      if isPlayer {
        player := player.(poison := 0);
      } else {
        dealer := dealer.(poison := 0);
      }
    }

    method UseChoiceCard(isPlayer: bool, item: InventoryItem, r: ItemRolls)
      modifies this
      requires ItemRollsOk(r) && item.itemType == ChoiceCard
      ensures State() == ItemEffect(old(State()), isPlayer, item, r)
    {
      var choices, drawn := ChoiceCardDraw(r.swaps);
      if isPlayer {
        randomChoices, status := choices, ChoosingRandomCard;
      } else {
        dealer := dealer.(hand := dealer.hand + [drawn]);
      }
    }

    method UseSabotage(isPlayer: bool, item: InventoryItem, r: ItemRolls)
      modifies this
      requires ItemRollsOk(r) && item.itemType == Sabotage
      ensures State() == ItemEffect(old(State()), isPlayer, item, r)
    {
      if isPlayer {
        dealer := dealer.(hand := DropLast(dealer.hand));
      } else {
        player := player.(hand := DropLast(player.hand));
      }
    }

    method UseHandSwap(isPlayer: bool, item: InventoryItem, r: ItemRolls)
      modifies this
      requires ItemRollsOk(r) && item.itemType == HandSwap
      ensures State() == ItemEffect(old(State()), isPlayer, item, r)
    {
      var p := player.hand;
      var d := dealer.hand;
      player := player.(hand := d);
      dealer := dealer.(hand := p);
      if isPlayer {
        dealer := dealer.(stood := false);
      } else if player.stood {
        player := player.(stood := false);
        if status == DealerTurn {
          status := PlayerTurn;
        }
      }
    }

    method UseScoreLimitChange(isPlayer: bool, item: InventoryItem, r: ItemRolls)
      modifies this
      requires ItemRollsOk(r) && item.itemType == ScoreLimitChange
      ensures State() == ItemEffect(old(State()), isPlayer, item, r)
    {
      if isPlayer {
        status := ConfiguringLimit;
      } else {
        player := player.(limit := 20);
      }
    }

    method UseThief(isPlayer: bool, item: InventoryItem, r: ItemRolls)
      modifies this
      requires ItemRollsOk(r) && item.itemType == Thief
      ensures State() == ItemEffect(old(State()), isPlayer, item, r)
    {
      var oppInv := if isPlayer then dealer.inventory else player.inventory;
      if |oppInv| > 0 {
        var targetIdx := StealTarget(oppInv, isPlayer, r.stealPick);
        var stolen := oppInv[targetIdx];
        if isPlayer {
          dealer := dealer.(inventory := RemoveAt(dealer.inventory, targetIdx));
          player := player.(inventory := player.inventory + [stolen]);
        } else {
          player := player.(inventory := RemoveAt(player.inventory, targetIdx));
          dealer := dealer.(inventory := dealer.inventory + [stolen]);
        }
      }
    }

    /** handleChoiceCard with the card in slot k of the three on offer. */
    method ChooseRandomCard(k: nat)
      modifies this
      requires Valid() && status == ChoosingRandomCard && k < |randomChoices|
      ensures State() == ChooseCardStep(old(State()), k)
      ensures Valid()
    {
      ghost var g0 := State();
      ChooseCardFacts(g0, k);
      player := player.(hand := player.hand + [randomChoices[k]]);
      status := PlayerTurn;
      randomChoices := [];
    }

    /** configureLimit, reached from the player's ScoreLimitChange; the
        dialog offers 20 and 22. */
    method ConfigureLimit(toPlayer: bool, val: int)
      modifies this
      requires Valid() && status == ConfiguringLimit && (val == 20 || val == 22)
      ensures State() == ConfigureLimitStep(old(State()), toPlayer, val)
      ensures Valid()
    {
      ghost var g0 := State();
      ConfigureLimitFacts(g0, toPlayer, val);
      if toPlayer {
        player := player.(limit := val);
      } else {
        dealer := dealer.(limit := val);
      }
      status := PlayerTurn;
    }

    /** One run of the aiTurn effect; returns the action taken. */
    method AiTick(r: Ai.AiRolls) returns (action: Ai.AiAction)
      modifies this
      requires Valid() && status == DealerTurn && Ai.RollsOk(State(), r)
      ensures action == Ai.Decide(old(State()), r.standRoll, r.aggressiveRoll)
      ensures State() == Ai.AiTickStep(old(State()), r)
      ensures Valid()
    {
      action := Ai.Decide(State(), r.standRoll, r.aggressiveRoll);
      match action {
        case Resolve =>
          Resolution(r.loot);
        case UseItemAt(k) =>
          UseItem(false, k, r.item);
        case StandNow =>
          dealer := dealer.(stood := true);
          Resolution(r.loot);
        case DrawCard =>
          DealerDrawCard();
      }
    }

    /** The end of the dealer's turn: the round ends when the player has
        stood, else the player moves. */
    method Resolution(loot: seq<int>)
      modifies this
      requires Valid() && status == DealerTurn
      requires LootDrawsOk(loot, player.poison > 0)
      ensures State() == Ai.Resolution(old(State()), loot)
      ensures Valid()
    {
      if player.stood {
        EndRoundCheck(loot);
      } else {
        status := PlayerTurn;
      }
    }

    /** The dealer's draw. */
    method DealerDrawCard()
      modifies this
      requires Valid() && status == DealerTurn
      ensures State() == Ai.DealerDraw(old(State()))
      ensures Valid()
    {
      var currentDeck := dealer.deck;
      if |currentDeck| == 0 {
        return;
      }
      var card := currentDeck[|currentDeck| - 1];
      currentDeck := currentDeck[..|currentDeck| - 1];
      dealer := dealer.(hand := dealer.hand + [card], deck := currentDeck);
      var handScore := Deck.CalculateScore(dealer.hand);
      var newScore := handScore - dealer.modifier;
      if newScore <= dealer.limit && !player.stood {
        status := PlayerTurn;
      }
    }

    /** processAiLoot. */
    method ProcessAiLoot(r: Loot.AiLootRolls)
      modifies this
      requires Valid() && Loot.AiLootRollsOk(r, dealer.poison > 0)
      ensures State() == Loot.ProcessAiLootStep(old(State()), r)
      ensures Valid()
    {
      Loot.ProcessAiLootValid(State(), r);
      var move := DealerLootMove(r);
      ApplyDealerMove(move);
    }

    /** The dealer's inventory after its loot move; five ids are used up. */
    method ApplyDealerMove(m: Loot.LootMove)
      modifies this
      requires m.Replace? ==> m.slot < |dealer.inventory|
      ensures State() == Loot.DealerMoveApplied(old(State()), m)
    {
      dealer := dealer.(inventory := Loot.ApplyMove(dealer.inventory, m));
      nextId := nextId + 5;
    }

    /** The dealer's loot move: three draws, banned types dropped, the forced
        Thief and super potion, the items over their limit dropped, then the
        choice. */
    method DealerLootMove(r: Loot.AiLootRolls) returns (move: Loot.LootMove)
      requires Loot.AiLootRollsOk(r, dealer.poison > 0)
      ensures move == Loot.AiLootMove(dealer.inventory, player.inventory, dealer.poison > 0, scores.dealerHp, nextId, r)
    {
      var drawn := Items.GenerateLootOptions(3, dealer.poison > 0, r.draws, nextId);
      var options := Loot.Filter(drawn, Loot.NotBanned());
      options := Loot.ForceThief(options, player.inventory, r, nextId);
      options := Loot.ForceSuper(options, scores.dealerHp, r, nextId);
      options := Loot.Filter(options, Loot.UnderLimit(dealer.inventory));
      move := Loot.AiLootChoice(dealer.inventory, options, dealer.poison > 0, r);
    }

    /** startNextRound. */
    method StartNextRound(r: Loot.AiLootRolls, pSwaps: seq<int>, dSwaps: seq<int>)
      modifies this
      requires Valid() && status != GameOver
      requires Loot.AiLootRollsOk(r, dealer.poison > 0)
      requires Deck.ValidSwaps(pSwaps, 52) && Deck.ValidSwaps(dSwaps, 52)
      ensures State() == Loot.StartNextRoundStep(old(State()), r, pSwaps, dSwaps)
      ensures Valid()
    {
      if scores.playerHp <= 0 || scores.dealerHp <= 0 {
        StartGame(pSwaps, dSwaps);
        return;
      }
      ProcessAiLoot(r);
      DealRound(false, pSwaps, dSwaps);
    }

    /** The player's inventory with the selected offer pushed, or written
        over the chosen slot when the inventory is full. */
    method PickedInventory(selected: Option<nat>, swapIndex: Option<nat>) returns (picked: seq<InventoryItem>)
      requires Loot.SwapOk(player.inventory, swapIndex)
      ensures picked == Loot.ApplyMove(player.inventory, Loot.PlayerLootMove(player.inventory, lootOptions, selected, swapIndex))
    {
      picked := player.inventory;
      if selected.Some? {
        var item := Find(lootOptions, Loot.HasId(selected.value));
        if item.Some? {
          if |picked| < MAX_INVENTORY {
            picked := picked + [item.value];
          } else if swapIndex.Some? {
            picked := picked[swapIndex.value := item.value];
          }
        }
      }
    }

    /** confirmLoot, and discardLoot when nothing is selected. The player's
        new inventory is computed first and written after the hand-over, so
        that the dealer's pick sees the inventory from before it, as the
        component's closures do; a restart wins over the pick. */
    method ConfirmLoot(selected: Option<nat>, swapIndex: Option<nat>, r: Loot.AiLootRolls,
                       pSwaps: seq<int>, dSwaps: seq<int>)
      modifies this
      requires Valid() && status == LootSelection
      requires Loot.SwapOk(player.inventory, swapIndex)
      requires Loot.AiLootRollsOk(r, dealer.poison > 0)
      requires Deck.ValidSwaps(pSwaps, 52) && Deck.ValidSwaps(dSwaps, 52)
      ensures State() == Loot.ConfirmLootStep(old(State()), selected, swapIndex, r, pSwaps, dSwaps)
      ensures Valid()
    {
      ghost var g0 := State();
      var picked := PickedInventory(selected, swapIndex);
      var restart := scores.playerHp <= 0 || scores.dealerHp <= 0;
      HandOver(r, pSwaps, dSwaps);
      ghost var g1 := State();
      assert Loot.ConfirmLootStep(g0, selected, swapIndex, r, pSwaps, dSwaps)
        == if restart then g1 else g1.(player := g1.player.(inventory := picked));
      if !restart {
        player := player.(inventory := picked);
      }
      Loot.ConfirmLootValid(g0, selected, swapIndex, r, pSwaps, dSwaps);
    }

    /** confirmLoot's hand-over: the offer is cleared and the next round
        starts. */
    method HandOver(r: Loot.AiLootRolls, pSwaps: seq<int>, dSwaps: seq<int>)
      modifies this
      requires Valid() && status == LootSelection
      requires Loot.AiLootRollsOk(r, dealer.poison > 0)
      requires Deck.ValidSwaps(pSwaps, 52) && Deck.ValidSwaps(dSwaps, 52)
      ensures State() == Loot.StartNextRoundStep(old(State()).(lootOptions := []), r, pSwaps, dSwaps)
    {
      lootOptions := [];
      StartNextRound(r, pSwaps, dSwaps);
    }
  }
}

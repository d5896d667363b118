/** The dealer's turn (the aiTurn effect of App.tsx): one item use, stand or
    draw per tick, chosen in a fixed priority order. */
module Ai {
  import opened Types
  import opened Rules

  /** What one tick does: resolve after an earlier stand, use the item in a
      slot, stand now, or draw a card. */
  datatype AiAction = Resolve | UseItemAt(index: nat) | StandNow | DrawCard

  /** The random inputs of one tick: standRoll is Math.random() > 0.4,
      aggressiveRoll is Math.random() < 0.7, plus those of the item used and
      the loot draws of a round that ends. */
  datatype AiRolls = AiRolls(standRoll: bool, aggressiveRoll: bool, item: ItemRolls, loot: seq<int>)

  predicate RollsOk(g: Game, r: AiRolls)
  {
    ItemRollsOk(r.item) && LootDrawsOk(r.loot, g.player.poison > 0)
  }

  /** The stand decision: 18 or more stands, 16 or 17 stands on standRoll;
      holding a ScoreModifier at 17 to 19 hits on aggressiveRoll; reaching the
      own limit always stands. */
  function ShouldStand(score: int, limit: int, hasModifier: bool, standRoll: bool, aggressiveRoll: bool): bool
  {
    var base := score >= 18 || (score >= 16 && standRoll);
    var bold := if hasModifier && 17 <= score <= 19 && aggressiveRoll then false else base;
    if score >= limit then true else bold
  }

  /** The item steps 0 to 6 of aiTurn, which come before the stand decision:
      Thief (when the player holds items), ScoreLimitChange, Poison, Antidote
      (when poisoned), Heal (at 35 hit points or less), ScoreBoost (at 16 or
      less), ScoreModifier (over the limit); each takes the first slot of its
      type. */
  function EarlyItem(g: Game): (k: Option<nat>)
    ensures k.Some? ==> k.value < |g.dealer.inventory|
  {
    var inv := g.dealer.inventory;
    if EarlyApplies(g, Thief) then Some(FirstSlot(inv, Thief))
    else if EarlyApplies(g, ScoreLimitChange) then Some(FirstSlot(inv, ScoreLimitChange))
    else if EarlyApplies(g, Poison) then Some(FirstSlot(inv, Poison))
    else if EarlyApplies(g, Antidote) then Some(FirstSlot(inv, Antidote))
    else if EarlyApplies(g, Heal) then Some(FirstSlot(inv, Heal))
    else if EarlyApplies(g, ScoreBoost) then Some(FirstSlot(inv, ScoreBoost))
    else if EarlyApplies(g, ScoreModifier) then Some(FirstSlot(inv, ScoreModifier))
    else Nothing
  }

  /** Step `t` of the item steps 0 to 6 applies: the dealer's inventory has
      an item of that type (the findIndex is not -1) and the step's own
      condition holds. */
  predicate EarlyApplies(g: Game, t: ItemType)
  {
    Holds(g.dealer.inventory, OfType(t)) && UseCondition(g, t, Score(g.dealer), false)
  }

  /** The findIndex of type t, known to find a slot. */
  function FirstSlot(inv: seq<InventoryItem>, t: ItemType): (k: nat)
    requires Holds(inv, OfType(t))
    ensures FirstOfType(inv, k, t)
  {
    FindIndex(inv, OfType(t))
  }

  /** The stand or hit logic of aiTurn: when standing, a HandSwap first (if
      the player is ahead), then a Sabotage, else the stand itself; when
      hitting, a ChoiceCard, else a draw. */
  function StandOrHit(g: Game, standRoll: bool, aggressiveRoll: bool): (a: AiAction)
    ensures a.UseItemAt? ==> a.index < |g.dealer.inventory|
  {
    var inv := g.dealer.inventory;
    var score := Score(g.dealer);
    var swap := FindIndex(inv, OfType(HandSwap));
    var dagger := FindIndex(inv, OfType(Sabotage));
    var choice := FindIndex(inv, OfType(ChoiceCard));
    if ShouldStand(score, g.dealer.limit, Holds(inv, OfType(ScoreModifier)), standRoll, aggressiveRoll) then
      if swap != -1 && Score(g.player) > score then UseItemAt(swap)
      else if dagger != -1 then UseItemAt(dagger)
      else StandNow
    else if choice != -1 then UseItemAt(choice)
    else DrawCard
  }

  /** The choice of one tick, in the priority order of aiTurn. */
  function Decide(g: Game, standRoll: bool, aggressiveRoll: bool): (a: AiAction)
    ensures a.UseItemAt? ==> a.index < |g.dealer.inventory|
  {
    if g.dealer.stood then Resolve
    else match EarlyItem(g)
      case Some(k) => UseItemAt(k)
      case Nothing => StandOrHit(g, standRoll, aggressiveRoll)
  }

  /** The dealer draws the last card of its deck; within the limit the turn
      passes to the player unless the player has stood (then the dealer moves
      again); over the limit the dealer keeps the turn to try a repair. An
      empty deck changes nothing. */
  function DealerDraw(g: Game): Game
  {
    var deck := g.dealer.deck;
    if |deck| == 0 then g
    else
      var c := g.dealer.(deck := deck[..|deck| - 1], hand := g.dealer.hand + [deck[|deck| - 1]]);
      var g1 := g.(dealer := c);
      if Score(c) > c.limit || g.player.stood then g1 else g1.(status := PlayerTurn)
  }

  /** One tick of the dealer's turn. */
  function AiTickStep(g: Game, r: AiRolls): Game
    requires RollsOk(g, r)
  {
    match Decide(g, r.standRoll, r.aggressiveRoll)
    case Resolve => Resolution(g, r.loot)
    case UseItemAt(k) => UseItemStep(g, false, k, r.item)
    case StandNow => Resolution(g.(dealer := g.dealer.(stood := true)), r.loot)
    case DrawCard => DealerDraw(g)
  }

  /** With the dealer standing: the round ends when the player has stood
      too, else the player moves. */
  function Resolution(g: Game, loot: seq<int>): Game
    requires LootDrawsOk(loot, g.player.poison > 0)
  {
    if g.player.stood then EndRoundCheckStep(g, loot) else g.(status := PlayerTurn)
  }

  // ---------------------------------------------------------------------
  // What the policy promises

  /** The stand rule: reaching the own limit always stands; 18 or more stands
      unless 17..19 with a ScoreModifier hits on aggressiveRoll; below 16 and
      below the limit never stands. */
  lemma ShouldStandRules(score: int, limit: int, hasModifier: bool, standRoll: bool, aggressiveRoll: bool)
    ensures score >= limit ==> ShouldStand(score, limit, hasModifier, standRoll, aggressiveRoll)
    ensures score >= 18 && !(hasModifier && score <= 19 && aggressiveRoll) ==>
      ShouldStand(score, limit, hasModifier, standRoll, aggressiveRoll)
    ensures score < 16 && score < limit ==> !ShouldStand(score, limit, hasModifier, standRoll, aggressiveRoll)
    ensures score < limit && hasModifier && 17 <= score <= 19 && aggressiveRoll ==>
      !ShouldStand(score, limit, hasModifier, standRoll, aggressiveRoll)
  {
  }

  /** The first slot of the dealer's inventory holding type t, if any. */
  predicate FirstOfType(inv: seq<InventoryItem>, k: nat, t: ItemType)
  {
    k < |inv| && inv[k].itemType == t && forall i | 0 <= i < k :: inv[i].itemType != t
  }

  /** The item's own condition in aiTurn's priority order: what must hold
      for the dealer to use an item of type `t` at its step. That no earlier
      step applied is stated separately, by DecidePriority and
      DecideStandOrDraw. */
  predicate UseCondition(g: Game, t: ItemType, score: int, stand: bool)
  {
    match t
    case Thief => |g.player.inventory| > 0
    case ScoreLimitChange => true
    case Poison => true
    case Antidote => g.dealer.poison > 0
    case Heal => g.scores.dealerHp <= INITIAL_HP - 5
    case ScoreBoost => score <= 16
    case ScoreModifier => score > g.dealer.limit
    case HandSwap => stand && Score(g.player) > score
    case Sabotage => stand
    case ChoiceCard => !stand
    case SeeNext3 => false
    case Spy => false
  }

  /** An item taken by steps 0 to 6 is the first of its type and its
      condition holds. */
  lemma EarlyItemRules(g: Game, stand: bool)
    ensures var k := EarlyItem(g);
      k.Some? ==> SlotChoice(g, k.value, Score(g.dealer), stand)
  {
    var inv := g.dealer.inventory;
    if EarlyApplies(g, Thief) {
      assert EarlyItem(g) == Some(FirstSlot(inv, Thief));
    } else if EarlyApplies(g, ScoreLimitChange) {
      assert EarlyItem(g) == Some(FirstSlot(inv, ScoreLimitChange));
    } else if EarlyApplies(g, Poison) {
      assert EarlyItem(g) == Some(FirstSlot(inv, Poison));
    } else if EarlyApplies(g, Antidote) {
      assert EarlyItem(g) == Some(FirstSlot(inv, Antidote));
    } else if EarlyApplies(g, Heal) {
      assert EarlyItem(g) == Some(FirstSlot(inv, Heal));
    } else if EarlyApplies(g, ScoreBoost) {
      assert EarlyItem(g) == Some(FirstSlot(inv, ScoreBoost));
    } else if EarlyApplies(g, ScoreModifier) {
      assert EarlyItem(g) == Some(FirstSlot(inv, ScoreModifier));
    }
  }

  /** An item taken by the stand or hit logic is the first of its type and its
      condition holds. */
  lemma StandOrHitRules(g: Game, standRoll: bool, aggressiveRoll: bool)
    ensures var a := StandOrHit(g, standRoll, aggressiveRoll);
      var inv := g.dealer.inventory;
      var score := Score(g.dealer);
      var stand := ShouldStand(score, g.dealer.limit, Holds(inv, OfType(ScoreModifier)), standRoll, aggressiveRoll);
      a.UseItemAt? ==> SlotChoice(g, a.index, score, stand)
  {
    var inv := g.dealer.inventory;
    var score := Score(g.dealer);
    var stand := ShouldStand(score, g.dealer.limit, Holds(inv, OfType(ScoreModifier)), standRoll, aggressiveRoll);
    var swap := FindIndex(inv, OfType(HandSwap));
    var dagger := FindIndex(inv, OfType(Sabotage));
    var choice := FindIndex(inv, OfType(ChoiceCard));
    if stand {
      if swap != -1 && Score(g.player) > score {
        UseSlot(g, swap, HandSwap, score, stand);
      } else if dagger != -1 {
        UseSlot(g, dagger, Sabotage, score, stand);
      }
    } else if choice != -1 {
      UseSlot(g, choice, ChoiceCard, score, stand);
    }
  }

  /** Every item use of a tick is the first item of its type, for a reason
      the priority order names: a Thief only when the player holds items;
      ScoreLimitChange and Poison always; Antidote only when poisoned; Heal
      only at 35 hit points or less; ScoreBoost only at 16 or less;
      ScoreModifier only over the limit; HandSwap only when standing behind;
      Sabotage only when standing; ChoiceCard only instead of a hit. SeeNext3
      and Spy are never used by the dealer. */
  lemma DecideItemRules(g: Game, standRoll: bool, aggressiveRoll: bool)
    ensures var a := Decide(g, standRoll, aggressiveRoll);
      var inv := g.dealer.inventory;
      var score := Score(g.dealer);
      var stand := ShouldStand(score, g.dealer.limit, Holds(inv, OfType(ScoreModifier)), standRoll, aggressiveRoll);
      a.UseItemAt? ==> !g.dealer.stood && SlotChoice(g, a.index, score, stand)
  {
    var score := Score(g.dealer);
    var stand := ShouldStand(score, g.dealer.limit, Holds(g.dealer.inventory, OfType(ScoreModifier)), standRoll, aggressiveRoll);
    EarlyItemRules(g, stand);
    StandOrHitRules(g, standRoll, aggressiveRoll);
  }

  /** Slot `k` holds the first item of its type and that type's condition
      holds. */
  predicate SlotChoice(g: Game, k: nat, score: int, stand: bool)
  {
    var inv := g.dealer.inventory;
    k < |inv| && FirstOfType(inv, k, inv[k].itemType) && UseCondition(g, inv[k].itemType, score, stand)
  }

  lemma UseSlot(g: Game, k: int, t: ItemType, score: int, stand: bool)
    requires k != -1 && FindIndex(g.dealer.inventory, OfType(t)) == k
    requires UseCondition(g, t, score, stand)
    ensures 0 <= k && SlotChoice(g, k, score, stand)
  {
    FindIndexFirst(g.dealer.inventory, k, t);
  }

  /** A slot found by type is the first of that type. */
  lemma FindIndexFirst(inv: seq<InventoryItem>, k: int, t: ItemType)
    requires k != -1 && FindIndex(inv, OfType(t)) == k
    ensures 0 <= k && FirstOfType(inv, k, t)
  {
  }

  /** None of the item steps 0 to 6 applies. */
  predicate NoEarlyStep(g: Game)
  {
    && !EarlyApplies(g, Thief) && !EarlyApplies(g, ScoreLimitChange) && !EarlyApplies(g, Poison)
    && !EarlyApplies(g, Antidote) && !EarlyApplies(g, Heal) && !EarlyApplies(g, ScoreBoost)
    && !EarlyApplies(g, ScoreModifier)
  }

  /** The tick uses the first item of type t. */
  predicate TakesFirst(a: AiAction, inv: seq<InventoryItem>, t: ItemType)
  {
    a.UseItemAt? && FirstOfType(inv, a.index, t)
  }

  /** The item steps in order: a dealer that has stood only resolves; then
      each step whose item is held and whose condition holds is taken, from
      the first slot of its type, as soon as no earlier step applies:
      Thief (player holds items), ScoreLimitChange, Poison, Antidote
      (poisoned), Heal (35 hit points or less), ScoreBoost (score 16 or
      less), ScoreModifier (over the limit). When none applies, the stand or
      hit logic decides. */
  lemma DecidePriority(g: Game, standRoll: bool, aggressiveRoll: bool)
    ensures g.dealer.stood ==> Decide(g, standRoll, aggressiveRoll) == Resolve
    ensures var a := Decide(g, standRoll, aggressiveRoll);
      var inv := g.dealer.inventory;
      && (!g.dealer.stood && EarlyApplies(g, Thief) ==> TakesFirst(a, inv, Thief))
      && ((!g.dealer.stood && !EarlyApplies(g, Thief) && EarlyApplies(g, ScoreLimitChange)) ==>
            TakesFirst(a, inv, ScoreLimitChange))
      && ((!g.dealer.stood && !EarlyApplies(g, Thief) && !EarlyApplies(g, ScoreLimitChange)
           && EarlyApplies(g, Poison)) ==>
            TakesFirst(a, inv, Poison))
      && ((!g.dealer.stood && !EarlyApplies(g, Thief) && !EarlyApplies(g, ScoreLimitChange)
           && !EarlyApplies(g, Poison) && EarlyApplies(g, Antidote)) ==>
            TakesFirst(a, inv, Antidote))
      && ((!g.dealer.stood && !EarlyApplies(g, Thief) && !EarlyApplies(g, ScoreLimitChange)
           && !EarlyApplies(g, Poison) && !EarlyApplies(g, Antidote) && EarlyApplies(g, Heal)) ==>
            TakesFirst(a, inv, Heal))
      && ((!g.dealer.stood && !EarlyApplies(g, Thief) && !EarlyApplies(g, ScoreLimitChange)
           && !EarlyApplies(g, Poison) && !EarlyApplies(g, Antidote) && !EarlyApplies(g, Heal)
           && EarlyApplies(g, ScoreBoost)) ==>
            TakesFirst(a, inv, ScoreBoost))
      && ((!g.dealer.stood && !EarlyApplies(g, Thief) && !EarlyApplies(g, ScoreLimitChange)
           && !EarlyApplies(g, Poison) && !EarlyApplies(g, Antidote) && !EarlyApplies(g, Heal)
           && !EarlyApplies(g, ScoreBoost) && EarlyApplies(g, ScoreModifier)) ==>
            TakesFirst(a, inv, ScoreModifier))
      && (!g.dealer.stood && NoEarlyStep(g) ==> a == StandOrHit(g, standRoll, aggressiveRoll))
  {
    var inv := g.dealer.inventory;
    if g.dealer.stood {
    } else if EarlyApplies(g, Thief) {
      assert EarlyItem(g) == Some(FirstSlot(inv, Thief));
    } else if EarlyApplies(g, ScoreLimitChange) {
      assert EarlyItem(g) == Some(FirstSlot(inv, ScoreLimitChange));
    } else if EarlyApplies(g, Poison) {
      assert EarlyItem(g) == Some(FirstSlot(inv, Poison));
    } else if EarlyApplies(g, Antidote) {
      assert EarlyItem(g) == Some(FirstSlot(inv, Antidote));
    } else if EarlyApplies(g, Heal) {
      assert EarlyItem(g) == Some(FirstSlot(inv, Heal));
    } else if EarlyApplies(g, ScoreBoost) {
      assert EarlyItem(g) == Some(FirstSlot(inv, ScoreBoost));
    } else if EarlyApplies(g, ScoreModifier) {
      assert EarlyItem(g) == Some(FirstSlot(inv, ScoreModifier));
    } else {
      assert EarlyItem(g) == Nothing;
    }
  }

  /** Step 7 of aiTurn: standing, a HandSwap comes first when the player is
      ahead, then a Sabotage, and only then the stand itself; hitting, a
      ChoiceCard comes before a draw. A draw happens only below the own
      limit, a stand only when the stand rule says so, and neither while an
      item step applies. With an empty inventory, reaching the limit is a
      stand. */
  lemma DecideStandOrDraw(g: Game, standRoll: bool, aggressiveRoll: bool)
    ensures var a := Decide(g, standRoll, aggressiveRoll);
      var inv := g.dealer.inventory;
      var stand := ShouldStand(Score(g.dealer), g.dealer.limit, Holds(inv, OfType(ScoreModifier)), standRoll, aggressiveRoll);
      var swapNow := Holds(inv, OfType(HandSwap)) && Score(g.player) > Score(g.dealer);
      && (!g.dealer.stood && NoEarlyStep(g) && stand && swapNow ==> TakesFirst(a, inv, HandSwap))
      && (!g.dealer.stood && NoEarlyStep(g) && stand && !swapNow && Holds(inv, OfType(Sabotage)) ==>
            TakesFirst(a, inv, Sabotage))
      && (!g.dealer.stood && NoEarlyStep(g) && !stand && Holds(inv, OfType(ChoiceCard)) ==>
            TakesFirst(a, inv, ChoiceCard))
      && (a == StandNow <==>
            !g.dealer.stood && NoEarlyStep(g) && stand && !swapNow && !Holds(inv, OfType(Sabotage)))
      && (a == DrawCard <==>
            !g.dealer.stood && NoEarlyStep(g) && !stand && !Holds(inv, OfType(ChoiceCard)))
      && (a == DrawCard ==> Score(g.dealer) < g.dealer.limit)
    ensures !g.dealer.stood && g.dealer.inventory == [] && Score(g.dealer) >= g.dealer.limit ==>
      Decide(g, standRoll, aggressiveRoll) == StandNow
  {
    var inv := g.dealer.inventory;
    ShouldStandRules(Score(g.dealer), g.dealer.limit, Holds(inv, OfType(ScoreModifier)), standRoll, aggressiveRoll);
    DecidePriority(g, standRoll, aggressiveRoll);
    if !g.dealer.stood && inv == [] {
      assert EarlyItem(g) == Nothing;
    }
  }

  /** A tick keeps the invariant; an item use consumes exactly that item (and
      moves one more for a Thief); a stand sets the dealer's stood flag and
      resolves the round if the player has stood; a draw moves the deck's
      last card to the dealer's hand. */
  lemma AiTickFacts(g: Game, r: AiRolls)
    requires Valid(g) && g.status == DealerTurn && RollsOk(g, r)
    ensures var a := Decide(g, r.standRoll, r.aggressiveRoll);
      var g1 := AiTickStep(g, r);
      && (a.UseItemAt? ==>
            |g1.player.inventory| + |g1.dealer.inventory| == |g.player.inventory| + |g.dealer.inventory| - 1)
      && (a == StandNow && !g.player.stood ==> g1.dealer.stood && g1.status == PlayerTurn)
      && ((a == StandNow || a == Resolve) && g.player.stood ==>
            g1.scores.roundsPlayed == g.scores.roundsPlayed + 1
            && (g1.status == GameOver || g1.status == LootSelection))
      && (a == DrawCard && |g.dealer.deck| > 0 ==>
            g1.dealer.hand == g.dealer.hand + [g.dealer.deck[|g.dealer.deck| - 1]]
            && g1.dealer.deck == g.dealer.deck[..|g.dealer.deck| - 1])
    ensures Valid(AiTickStep(g, r))
  {
    var a := Decide(g, r.standRoll, r.aggressiveRoll);
    if a.UseItemAt? {
      AiTickUse(g, r, a.index);
    } else if a == DrawCard {
      AiTickDraw(g, r);
    } else {
      AiTickResolve(g, r);
    }
  }

  lemma AiTickUse(g: Game, r: AiRolls, k: nat)
    requires Valid(g) && g.status == DealerTurn && RollsOk(g, r)
    requires Decide(g, r.standRoll, r.aggressiveRoll) == UseItemAt(k)
    ensures var g1 := AiTickStep(g, r);
      && |g1.player.inventory| + |g1.dealer.inventory| == |g.player.inventory| + |g.dealer.inventory| - 1
      && Valid(g1)
  {
    UseItemInventories(g, false, k, r.item);
  }

  lemma AiTickDraw(g: Game, r: AiRolls)
    requires Valid(g) && g.status == DealerTurn && RollsOk(g, r)
    requires Decide(g, r.standRoll, r.aggressiveRoll) == DrawCard
    ensures var g1 := AiTickStep(g, r);
      && (|g.dealer.deck| > 0 ==>
            g1.dealer.hand == g.dealer.hand + [g.dealer.deck[|g.dealer.deck| - 1]]
            && g1.dealer.deck == g.dealer.deck[..|g.dealer.deck| - 1])
      && Valid(g1)
  {
  }

  lemma AiTickResolve(g: Game, r: AiRolls)
    requires Valid(g) && g.status == DealerTurn && RollsOk(g, r)
    requires Decide(g, r.standRoll, r.aggressiveRoll) in {Resolve, StandNow}
    ensures var a := Decide(g, r.standRoll, r.aggressiveRoll);
      var g1 := AiTickStep(g, r);
      && (a == StandNow && !g.player.stood ==> g1.dealer.stood && g1.status == PlayerTurn)
      && (g.player.stood ==>
            g1.scores.roundsPlayed == g.scores.roundsPlayed + 1
            && (g1.status == GameOver || g1.status == LootSelection))
      && Valid(g1)
  {
    if Decide(g, r.standRoll, r.aggressiveRoll) == Resolve {
      ResolutionFacts(g, r.loot);
    } else {
      ResolutionFacts(g.(dealer := g.dealer.(stood := true)), r.loot);
    }
  }

  /** The end of the dealer's turn keeps the invariant and, when the player
      has stood, counts the round and ends in loot or game over. */
  lemma ResolutionFacts(g: Game, loot: seq<int>)
    requires Valid(g) && g.status == DealerTurn && LootDrawsOk(loot, g.player.poison > 0)
    ensures var g1 := Resolution(g, loot);
      && (g.player.stood ==>
            g1.scores.roundsPlayed == g.scores.roundsPlayed + 1
            && (g1.status == GameOver || g1.status == LootSelection))
      && (!g.player.stood ==> g1 == g.(status := PlayerTurn))
      && Valid(g1)
  {
    if g.player.stood {
      EndRoundFacts(g, RoundWinner(Score(g.player), g.player.limit, Score(g.dealer), g.dealer.limit), loot);
    }
  }
}

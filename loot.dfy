/** Loot between rounds (App.tsx): the dealer's own pick (processAiLoot),
    the player's pick (confirmLoot) and the hand-over to the next round
    (startNextRound). */
module Loot {
  import opened Types
  import opened Rules
  import Items
  import Deck

  // ---------------------------------------------------------------------
  // Item groups of processAiLoot

  /** Never offered to the dealer. */
  const BANNED: set<ItemType> := {SeeNext3, Spy}
  /** At most one copy in the dealer's inventory. */
  const UNIQUE_LIMIT: set<ItemType> := {ScoreModifier, ChoiceCard, ScoreBoost, HandSwap}
  /** Slots a potion may take over. */
  const REPLACEABLE: set<ItemType> := {ScoreModifier, ScoreBoost, ChoiceCard, HandSwap}
  /** Slots the dealer gives up first when full. */
  const LOW_PRIORITY: set<ItemType> := {ChoiceCard, Spy, SeeNext3}
  /** Items the dealer prefers over the heaviest option. */
  const PRIORITY: set<ItemType> := {Heal, ScoreModifier, ScoreLimitChange, Poison, Antidote, HandSwap, Thief}

  /** The random inputs of processAiLoot, in the order it draws them:
      - draws: the three weighted draws of the offer (dealer's poison odds);
      - thiefRoll: Math.random() < 0.50 for the forced Thief;
      - thiefDraws: the 20 fallback draws searched for a Thief (no poison);
      - superRoll: Math.random() < 0.25 for the forced super potion;
      - superDraws: the 20 fallback draws searched for a super potion;
      - fullReplace, standardReplace: Math.floor(Math.random() * 3), taken
        as `% 3` of a natural number;
      - potionRoll: Math.random() < 0.5 for a regular potion swap. */
  datatype AiLootRolls = AiLootRolls(
    draws: seq<int>,
    thiefRoll: bool,
    thiefDraws: seq<int>,
    superRoll: bool,
    superDraws: seq<int>,
    fullReplace: nat,
    potionRoll: bool,
    standardReplace: nat)

  predicate AiLootRollsOk(r: AiLootRolls, dealerPoisoned: bool)
  {
    && |r.draws| == 3 && Items.ValidDraws(r.draws, dealerPoisoned)
    && |r.thiefDraws| == 20 && Items.ValidDraws(r.thiefDraws, false)
    && |r.superDraws| == 20 && Items.ValidDraws(r.superDraws, false)
  }

  // ---------------------------------------------------------------------
  // Sequence helpers

  /** Array.prototype.filter. */
  function Filter(s: seq<InventoryItem>, p: InventoryItem -> bool): (r: seq<InventoryItem>)
    ensures |r| <= |s|
    ensures forall i | 0 <= i < |r| :: r[i] in s && p(r[i])
    ensures forall i | 0 <= i < |s| && p(s[i]) :: s[i] in r
  {
    if |s| == 0 then []
    else
      var rest := Filter(s[1..], p);
      assert forall i | 1 <= i < |s| :: s[i] == s[1..][i - 1];
      (if p(s[0]) then [s[0]] else []) + rest
  }

  /** `s[k] = x` on a JavaScript array followed by a filter: inside the array
      a replacement; past its end the new element lands after the others
      (the filter drops any hole). */
  function SetAt(s: seq<InventoryItem>, k: nat, x: InventoryItem): (r: seq<InventoryItem>)
    ensures k < |s| ==> r == s[k := x]
    ensures k >= |s| ==> r == s + [x]
  {
    if k < |s| then s[k := x] else s + [x]
  }

  /** Descending by weight. */
  predicate SortedDesc(s: seq<InventoryItem>)
  {
    forall i, j | 0 <= i < j < |s| :: s[i].weight >= s[j].weight
  }

  /** Inserts x into a descending sequence in front of the first element
      that is not heavier, so that x stays ahead of its equals. */
  function Insert(x: InventoryItem, s: seq<InventoryItem>): (r: seq<InventoryItem>)
    requires SortedDesc(s)
    ensures SortedDesc(r)
    ensures multiset(r) == multiset(s) + multiset{x}
  {
    if |s| == 0 then [x]
    else if x.weight >= s[0].weight then [x] + s
    else
      var rest := Insert(x, s[1..]);
      InsertBehindHead(x, s, rest);
      [s[0]] + rest
  }

  /** Putting the head in front of the insertion into the tail keeps the
      order, since every element of that insertion is at most as heavy. */
  lemma InsertBehindHead(x: InventoryItem, s: seq<InventoryItem>, rest: seq<InventoryItem>)
    requires |s| > 0 && SortedDesc(s) && x.weight < s[0].weight
    requires SortedDesc(rest) && multiset(rest) == multiset(s[1..]) + multiset{x}
    ensures SortedDesc([s[0]] + rest)
    ensures multiset([s[0]] + rest) == multiset(s) + multiset{x}
  {
    assert s == [s[0]] + s[1..];
    forall k | 0 <= k < |rest| ensures s[0].weight >= rest[k].weight {
      assert rest[k] in multiset(rest);
      if rest[k] != x {
        assert rest[k] in multiset(s[1..]);
        var j :| 0 <= j < |s[1..]| && s[1..][j] == rest[k];
        assert s[j + 1] == rest[k];
      }
    }
  }

  /** options.sort((a, b) => b.weight - a.weight): a stable sort, heaviest
      first; it permutes the options. */
  function SortByWeight(s: seq<InventoryItem>): (r: seq<InventoryItem>)
    ensures SortedDesc(r)
    ensures multiset(r) == multiset(s)
  {
    if |s| == 0 then []
    else
      assert s == [s[0]] + s[1..];
      Insert(s[0], SortByWeight(s[1..]))
  }

  /** The sorted options are the options. */
  lemma SortKeepsMembers(s: seq<InventoryItem>)
    ensures |SortByWeight(s)| == |s|
    ensures forall y :: y in SortByWeight(s) <==> y in s
  {
    var r := SortByWeight(s);
    assert |multiset(r)| == |multiset(s)|;
    forall y ensures y in r <==> y in s {
      assert y in r <==> y in multiset(r);
      assert y in s <==> y in multiset(s);
    }
  }

  function HasId(id: nat): InventoryItem -> bool
  {
    (it: InventoryItem) => it.id == id
  }

  function NotBanned(): InventoryItem -> bool
  {
    (it: InventoryItem) => it.itemType !in BANNED
  }

  /** A Heal of value 10 or 50: what makes the dealer hunt for a Thief. */
  function IsBigPotion(): InventoryItem -> bool
  {
    (it: InventoryItem) => it.itemType == Heal && (it.value == 50 || it.value == 10)
  }

  /** A Heal of value 5 or 10. */
  function IsRegularPotion(): InventoryItem -> bool
  {
    (it: InventoryItem) => it.itemType == Heal && (it.value == 5 || it.value == 10)
  }

  /** The unique-limit filter: an item of a limited type passes only when
      the inventory holds none of that type. */
  function UnderLimit(inv: seq<InventoryItem>): InventoryItem -> bool
  {
    (it: InventoryItem) => it.itemType !in UNIQUE_LIMIT || !Holds(inv, OfType(it.itemType))
  }

  // ---------------------------------------------------------------------
  // The dealer's offer

  /** Step A: when the player holds a big potion and thiefRoll, a Thief (the
      offer's own, else the first of the fallback draws) is put in slot 0
      under the id firstId + 3. */
  function ForceThief(options: seq<InventoryItem>, playerInv: seq<InventoryItem>, r: AiLootRolls, firstId: nat): seq<InventoryItem>
    requires Items.ValidDraws(r.thiefDraws, false)
  {
    if Holds(playerInv, IsBigPotion()) && r.thiefRoll then
      var found := match Find(options, OfType(Thief))
        case Some(x) => Some(x)
        case Nothing => Find(Items.LootOptions(false, r.thiefDraws, firstId), OfType(Thief));
      match found
      case Some(x) => SetAt(options, 0, x.(id := firstId + 3))
      case Nothing => options
    else options
  }

  /** Step B: at 10 hit points or less and superRoll, a Heal of value 50
      (the offer's own, else the first of the fallback draws) is put in slot
      1 under the id firstId + 4. */
  function ForceSuper(options: seq<InventoryItem>, dealerHp: int, r: AiLootRolls, firstId: nat): seq<InventoryItem>
    requires Items.ValidDraws(r.superDraws, false)
  {
    if dealerHp <= 10 && r.superRoll then
      var found := match Find(options, IsSuperHeal())
        case Some(x) => Some(x)
        case Nothing => Find(Items.LootOptions(false, r.superDraws, firstId), IsSuperHeal());
      match found
      case Some(x) => SetAt(options, 1, x.(id := firstId + 4))
      case Nothing => options
    else options
  }

  /** The options the dealer chooses from: three draws without the banned
      types, steps A and B, then the unique-limit filter. */
  function AiLootOffer(dealerInv: seq<InventoryItem>, playerInv: seq<InventoryItem>, dealerPoisoned: bool,
                       dealerHp: int, firstId: nat, r: AiLootRolls): seq<InventoryItem>
    requires AiLootRollsOk(r, dealerPoisoned)
  {
    var drawn := Items.LootOptions(dealerPoisoned, r.draws, firstId);
    var o1 := Filter(drawn, NotBanned());
    var o2 := ForceThief(o1, playerInv, r, firstId);
    var o3 := ForceSuper(o2, dealerHp, r, firstId);
    Filter(o3, UnderLimit(dealerInv))
  }

  // ---------------------------------------------------------------------
  // The dealer's choice

  /** What happens to an inventory: nothing, an item pushed, or one slot
      overwritten. */
  datatype LootMove = Keep | Add(item: InventoryItem) | Replace(slot: nat, item: InventoryItem)

  function ApplyMove(inv: seq<InventoryItem>, m: LootMove): seq<InventoryItem>
    requires m.Replace? ==> m.slot < |inv|
  {
    match m
    case Keep => inv
    case Add(x) => inv + [x]
    case Replace(k, x) => inv[k := x]
  }

  /** The standard candidate, searched in the sorted options: an Antidote
      when poisoned, else the first priority item, else the heaviest. */
  function Candidate(sorted: seq<InventoryItem>, dealerPoisoned: bool): (c: InventoryItem)
    requires |sorted| > 0
    ensures c in sorted
  {
    var pk := FindIndex(sorted, InTypes(PRIORITY));
    var ak := FindIndex(sorted, OfType(Antidote));
    if dealerPoisoned && ak != -1 then sorted[ak]
    else if pk != -1 then sorted[pk]
    else sorted[0]
  }

  /** The three branches of processAiLoot after the offer: a super potion is
      always taken (pushed, or over the first replaceable or low priority
      slot, else over a random one); a regular potion takes the first
      replaceable slot on potionRoll; otherwise the candidate is pushed, or
      replaces the first low priority slot, or, being a priority item, a
      random slot. */
  function AiLootChoice(inv: seq<InventoryItem>, options: seq<InventoryItem>, dealerPoisoned: bool, r: AiLootRolls): (m: LootMove)
    ensures m.Add? ==> |inv| < MAX_INVENTORY
    ensures m.Replace? ==> m.slot < |inv|
    ensures !m.Keep? ==> m.item in options
  {
    if |options| == 0 then Keep
    else match Find(options, IsSuperHeal())
      case Some(sp) =>
        if |inv| < MAX_INVENTORY then Add(sp)
        else
          var k := FindIndex(inv, InTypes(REPLACEABLE + LOW_PRIORITY));
          Replace(if k == -1 then r.fullReplace % MAX_INVENTORY else k, sp)
      case Nothing =>
        var target := FindIndex(inv, InTypes(REPLACEABLE));
        var potion := Find(options, IsRegularPotion());
        if potion.Some? && target != -1 && r.potionRoll then Replace(target, potion.value)
        else
          SortKeepsMembers(options);
          var c := Candidate(SortByWeight(options), dealerPoisoned);
          if |inv| < MAX_INVENTORY then Add(c)
          else
            var low := FindIndex(inv, InTypes(LOW_PRIORITY));
            if low != -1 then Replace(low, c)
            else if c.itemType in PRIORITY then Replace(r.standardReplace % MAX_INVENTORY, c)
            else Keep
  }

  /** processAiLoot's move. It reads the player's inventory as it was before
      the player's own pick of the same hand-over. */
  function AiLootMove(dealerInv: seq<InventoryItem>, playerInv: seq<InventoryItem>, dealerPoisoned: bool,
                      dealerHp: int, firstId: nat, r: AiLootRolls): (m: LootMove)
    requires AiLootRollsOk(r, dealerPoisoned)
    ensures m.Add? ==> |dealerInv| < MAX_INVENTORY
    ensures m.Replace? ==> m.slot < |dealerInv|
  {
    AiLootChoice(dealerInv, AiLootOffer(dealerInv, playerInv, dealerPoisoned, dealerHp, firstId, r), dealerPoisoned, r)
  }

  /** processAiLoot: the dealer's inventory after its move; the five ids
      from nextId on are used up (three draws, two forced items). */
  function ProcessAiLootStep(g: Game, r: AiLootRolls): Game
    requires AiLootRollsOk(r, g.dealer.poison > 0)
  {
    DealerMoveApplied(g, AiLootMove(g.dealer.inventory, g.player.inventory, g.dealer.poison > 0,
                                    g.scores.dealerHp, g.nextId, r))
  }

  /** The dealer's inventory after move m, with the counter past the five
      ids the loot draws used. */
  function DealerMoveApplied(g: Game, m: LootMove): Game
    requires m.Replace? ==> m.slot < |g.dealer.inventory|
  {
    g.(dealer := g.dealer.(inventory := ApplyMove(g.dealer.inventory, m)), nextId := g.nextId + 5)
  }

  /** startNextRound: a side at 0 hit points restarts the game; otherwise
      the dealer picks loot and the next round is dealt (poison ticking). */
  function StartNextRoundStep(g: Game, r: AiLootRolls, pSwaps: seq<int>, dSwaps: seq<int>): Game
    requires AiLootRollsOk(r, g.dealer.poison > 0)
    requires Deck.ValidSwaps(pSwaps, 52) && Deck.ValidSwaps(dSwaps, 52)
  {
    if g.scores.playerHp <= 0 || g.scores.dealerHp <= 0 then StartGameStep(g, pSwaps, dSwaps)
    else DealRoundStep(ProcessAiLootStep(g, r), false, pSwaps, dSwaps)
  }

  // ---------------------------------------------------------------------
  // The player's pick

  /** The swap slot, when given, is one of the inventory's slots. */
  predicate SwapOk(inv: seq<InventoryItem>, swapIndex: Option<nat>)
  {
    swapIndex.Some? ==> swapIndex.value < |inv|
  }

  /** confirmLoot's move: the selected offer is pushed when there is room,
      else written over the chosen slot; no selection, an unknown id or a
      full inventory without a slot changes nothing. */
  function PlayerLootMove(inv: seq<InventoryItem>, offer: seq<InventoryItem>, selected: Option<nat>, swapIndex: Option<nat>): (m: LootMove)
    requires SwapOk(inv, swapIndex)
    ensures m.Replace? ==> m.slot < |inv|
  {
    match selected
    case Nothing => Keep
    case Some(id) =>
      match Find(offer, HasId(id))
      case Nothing => Keep
      case Some(x) =>
        if |inv| < MAX_INVENTORY then Add(x)
        else match swapIndex
          case Some(k) => Replace(k, x)
          case Nothing => Keep
  }

  /** confirmLoot (discardLoot is the same with no selection): the offer is
      cleared and the next round starts; the dealer's pick sees the player's
      inventory from before the pick, and the pick lands unless the game
      restarted. */
  function ConfirmLootStep(g: Game, selected: Option<nat>, swapIndex: Option<nat>, r: AiLootRolls,
                           pSwaps: seq<int>, dSwaps: seq<int>): Game
    requires SwapOk(g.player.inventory, swapIndex)
    requires AiLootRollsOk(r, g.dealer.poison > 0)
    requires Deck.ValidSwaps(pSwaps, 52) && Deck.ValidSwaps(dSwaps, 52)
  {
    var picked := ApplyMove(g.player.inventory, PlayerLootMove(g.player.inventory, g.lootOptions, selected, swapIndex));
    var g1 := StartNextRoundStep(g.(lootOptions := []), r, pSwaps, dSwaps);
    if g.scores.playerHp <= 0 || g.scores.dealerHp <= 0 then g1
    else g1.(player := g1.player.(inventory := picked))
  }

  // ---------------------------------------------------------------------
  // What the loot logic promises

  /** A move keeps an inventory well formed and within three items, and adds
      at most the moved item's id. */
  lemma MoveOk(inv: seq<InventoryItem>, m: LootMove, n: nat)
    requires InventoryOk(inv, n) && |inv| <= MAX_INVENTORY
    requires m.Add? ==> |inv| < MAX_INVENTORY
    requires m.Replace? ==> m.slot < |inv|
    requires !m.Keep? ==> Items.ItemOk(m.item) && m.item.id < n && m.item.id !in Ids(inv)
    ensures InventoryOk(ApplyMove(inv, m), n) && |ApplyMove(inv, m)| <= MAX_INVENTORY
    ensures m.Keep? ==> Ids(ApplyMove(inv, m)) == Ids(inv)
    ensures !m.Keep? ==> Ids(ApplyMove(inv, m)) <= Ids(inv) + {m.item.id}
  {
    match m
    case Keep =>
    case Add(x) => AppendOk(inv, x, n);
    case Replace(k, x) => ReplaceOk(inv, k, x, n);
  }

  /** Every offer is a catalog item of an allowed type with one of the ids
      firstId .. firstId + 4, and no item of a limited type the dealer
      already holds. */
  predicate OfferOk(s: seq<InventoryItem>, firstId: nat)
  {
    forall i | 0 <= i < |s| ::
      Items.ItemOk(s[i]) && s[i].itemType !in BANNED && firstId <= s[i].id < firstId + 5
  }

  lemma ForcedOk(options: seq<InventoryItem>, playerInv: seq<InventoryItem>, dealerHp: int, r: AiLootRolls, firstId: nat)
    requires Items.ValidDraws(r.thiefDraws, false) && Items.ValidDraws(r.superDraws, false)
    requires OfferOk(options, firstId)
    ensures OfferOk(ForceThief(options, playerInv, r, firstId), firstId)
    ensures OfferOk(ForceSuper(options, dealerHp, r, firstId), firstId)
  {
    if Holds(playerInv, IsBigPotion()) && r.thiefRoll {
      ForcedItemOk(options, Items.LootOptions(false, r.thiefDraws, firstId), OfType(Thief), 0, firstId + 3, firstId);
    }
    if dealerHp <= 10 && r.superRoll {
      ForcedItemOk(options, Items.LootOptions(false, r.superDraws, firstId), IsSuperHeal(), 1, firstId + 4, firstId);
    }
  }

  /** Writing the first match of p (in the offer, else in the fallback
      draws) into slot k under a fresh id keeps the offer well formed. */
  lemma ForcedItemOk(options: seq<InventoryItem>, fallback: seq<InventoryItem>, p: InventoryItem -> bool,
                     k: nat, id: nat, firstId: nat)
    requires OfferOk(options, firstId) && firstId <= id < firstId + 5
    requires forall i | 0 <= i < |fallback| :: Items.ItemOk(fallback[i])
    requires forall it :: p(it) ==> it.itemType !in BANNED
    ensures var found := match Find(options, p)
        case Some(x) => Some(x)
        case Nothing => Find(fallback, p);
      found.Some? ==> OfferOk(SetAt(options, k, found.value.(id := id)), firstId)
  {
    var found := match Find(options, p)
        case Some(x) => Some(x)
        case Nothing => Find(fallback, p);
    if found.Some? {
      var x := found.value.(id := id);
      assert Items.ItemOk(x) && x.itemType !in BANNED;
      var t := SetAt(options, k, x);
      forall i | 0 <= i < |t|
        ensures Items.ItemOk(t[i]) && t[i].itemType !in BANNED && firstId <= t[i].id < firstId + 5
      {
        if i < |options| && t[i] != x {
          assert t[i] == options[i];
        }
      }
    }
  }

  lemma OfferFacts(dealerInv: seq<InventoryItem>, playerInv: seq<InventoryItem>, dealerPoisoned: bool,
                   dealerHp: int, firstId: nat, r: AiLootRolls)
    requires AiLootRollsOk(r, dealerPoisoned)
    ensures var offer := AiLootOffer(dealerInv, playerInv, dealerPoisoned, dealerHp, firstId, r);
      && OfferOk(offer, firstId)
      && forall i | 0 <= i < |offer| && offer[i].itemType in UNIQUE_LIMIT :: !Holds(dealerInv, OfType(offer[i].itemType))
  {
    var drawn := Items.LootOptions(dealerPoisoned, r.draws, firstId);
    var o1 := Filter(drawn, NotBanned());
    assert OfferOk(o1, firstId);
    var o2 := ForceThief(o1, playerInv, r, firstId);
    ForcedOk(o1, playerInv, dealerHp, r, firstId);
    ForcedOk(o2, playerInv, dealerHp, r, firstId);
    var offer := AiLootOffer(dealerInv, playerInv, dealerPoisoned, dealerHp, firstId, r);
    forall i | 0 <= i < |offer| && offer[i].itemType in UNIQUE_LIMIT
      ensures !Holds(dealerInv, OfType(offer[i].itemType))
    {
      assert UnderLimit(dealerInv)(offer[i]);
    }
  }

  /** The item the dealer takes is never SeeNext3 or Spy, never a second
      copy of a limited type, and comes with a fresh id; a move only pushes
      into an inventory with room and only overwrites an existing slot. */
  lemma AiLootMoveRules(dealerInv: seq<InventoryItem>, playerInv: seq<InventoryItem>, dealerPoisoned: bool,
                        dealerHp: int, firstId: nat, r: AiLootRolls)
    requires AiLootRollsOk(r, dealerPoisoned)
    ensures var m := AiLootMove(dealerInv, playerInv, dealerPoisoned, dealerHp, firstId, r);
      !m.Keep? ==>
        && Items.ItemOk(m.item) && m.item.itemType !in BANNED
        && firstId <= m.item.id < firstId + 5
        && (m.item.itemType in UNIQUE_LIMIT ==> !Holds(dealerInv, OfType(m.item.itemType)))
  {
    OfferFacts(dealerInv, playerInv, dealerPoisoned, dealerHp, firstId, r);
  }

  /** When the offer holds a super potion the dealer takes one; with room it
      is pushed. An empty offer leaves the inventory as it is. */
  lemma SuperPotionTaken(inv: seq<InventoryItem>, options: seq<InventoryItem>, dealerPoisoned: bool, r: AiLootRolls)
    ensures var m := AiLootChoice(inv, options, dealerPoisoned, r);
      && (Holds(options, IsSuperHeal()) ==> !m.Keep? && m.item.itemType == Heal && m.item.value == 50)
      && (Holds(options, IsSuperHeal()) && |inv| < MAX_INVENTORY ==> m.Add?)
      && (|options| == 0 ==> m == Keep)
  {
    if Holds(options, IsSuperHeal()) {
      var k := FindIndex(options, IsSuperHeal());
      assert IsSuperHeal()(options[k]);
    }
  }

  /** The candidate within the sorted options: an Antidote when poisoned and
      one is there; otherwise the first priority item, which is as heavy as
      every later one; otherwise the head, the heaviest. */
  lemma CandidateInSorted(sorted: seq<InventoryItem>, dealerPoisoned: bool)
    requires |sorted| > 0 && SortedDesc(sorted)
    ensures var c := Candidate(sorted, dealerPoisoned);
      var antidote := dealerPoisoned && Holds(sorted, OfType(Antidote));
      && (antidote ==> c.itemType == Antidote)
      && (!antidote && Holds(sorted, InTypes(PRIORITY)) ==>
            c.itemType in PRIORITY
            && forall j | 0 <= j < |sorted| && sorted[j].itemType in PRIORITY :: sorted[j].weight <= c.weight)
      && (!antidote && !Holds(sorted, InTypes(PRIORITY)) ==>
            forall j | 0 <= j < |sorted| :: sorted[j].weight <= c.weight)
  {
    var pk := FindIndex(sorted, InTypes(PRIORITY));
    if pk != -1 {
      forall j | 0 <= j < |sorted| && sorted[j].itemType in PRIORITY ensures sorted[j].weight <= sorted[pk].weight {
        assert InTypes(PRIORITY)(sorted[j]);
      }
    }
  }

  /** The standard candidate: an Antidote when the dealer is poisoned and one
      is offered; otherwise a priority item at least as heavy as every other
      priority item offered; otherwise an option at least as heavy as all. */
  lemma CandidateRules(options: seq<InventoryItem>, dealerPoisoned: bool)
    requires |options| > 0
    ensures var c := Candidate(SortByWeight(options), dealerPoisoned);
      var antidote := dealerPoisoned && Holds(options, OfType(Antidote));
      && c in options
      && (antidote ==> c.itemType == Antidote)
      && (!antidote && Holds(options, InTypes(PRIORITY)) ==>
            c.itemType in PRIORITY
            && forall y | y in options && y.itemType in PRIORITY :: y.weight <= c.weight)
      && (!antidote && !Holds(options, InTypes(PRIORITY)) ==>
            forall y | y in options :: y.weight <= c.weight)
  {
    var sorted := SortByWeight(options);
    SortKeepsMembers(options);
    HoldsSame(options, sorted, OfType(Antidote));
    HoldsSame(options, sorted, InTypes(PRIORITY));
    CandidateInSorted(sorted, dealerPoisoned);
    var c := Candidate(sorted, dealerPoisoned);
    forall y | y in options ensures exists j :: 0 <= j < |sorted| && sorted[j] == y {
      assert y in sorted;
    }
  }

  /** Two sequences with the same elements hold the same kinds of items. */
  lemma HoldsSame(s: seq<InventoryItem>, t: seq<InventoryItem>, p: InventoryItem -> bool)
    requires forall y :: y in s <==> y in t
    ensures Holds(s, p) <==> Holds(t, p)
  {
    if Holds(s, p) {
      var k := FindIndex(s, p);
      assert s[k] in t;
      var j :| 0 <= j < |t| && t[j] == s[k];
      assert p(t[j]);
    }
    if Holds(t, p) {
      var k := FindIndex(t, p);
      assert t[k] in s;
      var j :| 0 <= j < |s| && s[j] == t[k];
      assert p(s[j]);
    }
  }

  /** Step B puts a super potion into the offer whenever the offer or the
      fallback draws hold one. */
  lemma ForceSuperHolds(options: seq<InventoryItem>, dealerHp: int, r: AiLootRolls, firstId: nat)
    requires Items.ValidDraws(r.superDraws, false)
    requires dealerHp <= 10 && r.superRoll
    requires Holds(Items.LootOptions(false, r.superDraws, firstId), IsSuperHeal())
    ensures Holds(ForceSuper(options, dealerHp, r, firstId), IsSuperHeal())
  {
    var fallback := Items.LootOptions(false, r.superDraws, firstId);
    var x := match Find(options, IsSuperHeal())
      case Some(x) => x
      case Nothing => fallback[FindIndex(fallback, IsSuperHeal())];
    assert IsSuperHeal()(x);
    var y := x.(id := firstId + 4);
    var o := ForceSuper(options, dealerHp, r, firstId);
    assert o == SetAt(options, 1, y);
    var i := if 1 < |options| then 1 else |options|;
    assert o[i] == y && IsSuperHeal()(o[i]);
  }

  /** The unique-limit filter never removes a super potion. */
  lemma UnderLimitKeepsSuper(s: seq<InventoryItem>, inv: seq<InventoryItem>)
    requires Holds(s, IsSuperHeal())
    ensures Holds(Filter(s, UnderLimit(inv)), IsSuperHeal())
  {
    var k := FindIndex(s, IsSuperHeal());
    assert UnderLimit(inv)(s[k]);
    var f := Filter(s, UnderLimit(inv));
    var i :| 0 <= i < |f| && f[i] == s[k];
    assert IsSuperHeal()(f[i]);
  }

  /** Step B is reliable: at 10 hit points or less, on superRoll, with a
      super potion among the offer or the fallback draws, the dealer ends up
      taking a super potion. */
  lemma ForcedSuperTaken(dealerInv: seq<InventoryItem>, playerInv: seq<InventoryItem>, dealerPoisoned: bool,
                         dealerHp: int, firstId: nat, r: AiLootRolls)
    requires AiLootRollsOk(r, dealerPoisoned)
    requires dealerHp <= 10 && r.superRoll
    requires Holds(Items.LootOptions(false, r.superDraws, firstId), IsSuperHeal())
    ensures var m := AiLootMove(dealerInv, playerInv, dealerPoisoned, dealerHp, firstId, r);
      !m.Keep? && m.item.itemType == Heal && m.item.value == 50
  {
    var drawn := Items.LootOptions(dealerPoisoned, r.draws, firstId);
    var o2 := ForceThief(Filter(drawn, NotBanned()), playerInv, r, firstId);
    ForceSuperHolds(o2, dealerHp, r, firstId);
    UnderLimitKeepsSuper(ForceSuper(o2, dealerHp, r, firstId), dealerInv);
    SuperPotionTaken(dealerInv, AiLootOffer(dealerInv, playerInv, dealerPoisoned, dealerHp, firstId, r), dealerPoisoned, r);
  }

  /** A new dealer inventory that keeps the invariant's shape and adds only
      ids from the counter on keeps the invariant under a raised counter. */
  lemma DealerInventoryValid(g: Game, inv: seq<InventoryItem>, added: set<nat>, n: nat)
    requires Valid(g) && g.nextId <= n
    requires InventoryOk(inv, n) && |inv| <= MAX_INVENTORY
    requires Ids(inv) <= Ids(g.dealer.inventory) + added
    requires forall id | id in added :: g.nextId <= id
    ensures Valid(g.(dealer := g.dealer.(inventory := inv), nextId := n))
  {
    forall id | id in Ids(g.player.inventory) ensures id < g.nextId {
      var i :| 0 <= i < |g.player.inventory| && g.player.inventory[i].id == id;
    }
    forall id | id in Ids(g.lootOptions) ensures id < g.nextId {
      var i :| 0 <= i < |g.lootOptions| && g.lootOptions[i].id == id;
    }
  }

  /** processAiLoot keeps the invariant: at most three items, distinct fresh
      ids, and nothing else changes but the id counter. */
  lemma ProcessAiLootFacts(g: Game, r: AiLootRolls)
    requires Valid(g) && AiLootRollsOk(r, g.dealer.poison > 0)
    ensures var g1 := ProcessAiLootStep(g, r);
      && g1 == g.(dealer := g1.dealer, nextId := g.nextId + 5)
      && g1.dealer == g.dealer.(inventory := g1.dealer.inventory)
      && |g1.dealer.inventory| <= MAX_INVENTORY
      && forall id | id in Ids(g1.dealer.inventory) :: id in Ids(g.dealer.inventory) || g.nextId <= id
    ensures Valid(ProcessAiLootStep(g, r))
  {
    var inv := g.dealer.inventory;
    var m := AiLootMove(inv, g.player.inventory, g.dealer.poison > 0, g.scores.dealerHp, g.nextId, r);
    assert ProcessAiLootStep(g, r) == DealerMoveApplied(g, m);
    AiLootMoveRules(inv, g.player.inventory, g.dealer.poison > 0, g.scores.dealerHp, g.nextId, r);
    DealerMoveValid(g, m);
  }

  /** processAiLoot keeps the invariant. */
  lemma ProcessAiLootValid(g: Game, r: AiLootRolls)
    requires Valid(g) && AiLootRollsOk(r, g.dealer.poison > 0)
    ensures Valid(ProcessAiLootStep(g, r))
  {
    var inv := g.dealer.inventory;
    var m := AiLootMove(inv, g.player.inventory, g.dealer.poison > 0, g.scores.dealerHp, g.nextId, r);
    assert ProcessAiLootStep(g, r) == DealerMoveApplied(g, m);
    AiLootMoveRules(inv, g.player.inventory, g.dealer.poison > 0, g.scores.dealerHp, g.nextId, r);
    DealerMoveValid(g, m);
  }

  /** A dealer move with a fresh catalog item keeps the invariant once the
      counter moves past the five new ids. */
  lemma DealerMoveValid(g: Game, m: LootMove)
    requires Valid(g)
    requires m.Add? ==> |g.dealer.inventory| < MAX_INVENTORY
    requires m.Replace? ==> m.slot < |g.dealer.inventory|
    requires !m.Keep? ==> Items.ItemOk(m.item) && g.nextId <= m.item.id < g.nextId + 5
    ensures |ApplyMove(g.dealer.inventory, m)| <= MAX_INVENTORY
    ensures forall id | id in Ids(ApplyMove(g.dealer.inventory, m)) :: id in Ids(g.dealer.inventory) || g.nextId <= id
    ensures Valid(DealerMoveApplied(g, m))
  {
    var n := g.nextId + 5;
    var inv := g.dealer.inventory;
    forall id | id in Ids(inv) ensures id < g.nextId {
      var i :| 0 <= i < |inv| && inv[i].id == id;
    }
    MoveOk(inv, m, n);
    DealerInventoryValid(g, ApplyMove(inv, m), if m.Keep? then {} else {m.item.id}, n);
  }

  /** startNextRound: with a side at 0 hit points the game restarts (full hit
      points, empty inventories); otherwise the dealer's inventory gets its
      loot move, the counter moves on by five, the player's inventory stays,
      and the round is dealt, or the poison tick ends the game. */
  lemma StartNextRoundFacts(g: Game, r: AiLootRolls, pSwaps: seq<int>, dSwaps: seq<int>)
    requires Valid(g) && g.status != GameOver
    requires AiLootRollsOk(r, g.dealer.poison > 0)
    requires Deck.ValidSwaps(pSwaps, 52) && Deck.ValidSwaps(dSwaps, 52)
    ensures var g1 := StartNextRoundStep(g, r, pSwaps, dSwaps);
      && (g.scores.playerHp <= 0 || g.scores.dealerHp <= 0 ==>
            && g1.scores == ScoreState(INITIAL_HP, INITIAL_HP, 0) && g1.status == PlayerTurn
            && g1.player.inventory == [] && g1.dealer.inventory == [])
      && (g.scores.playerHp > 0 && g.scores.dealerHp > 0 ==>
            && g1.dealer.inventory == ApplyMove(g.dealer.inventory,
                 AiLootMove(g.dealer.inventory, g.player.inventory, g.dealer.poison > 0, g.scores.dealerHp, g.nextId, r))
            && g1.player.inventory == g.player.inventory
            && g1.lootOptions == g.lootOptions
            && g1.nextId == g.nextId + 5
            && (g1.status == PlayerTurn || g1.status == GameOver)
            && forall id | id in Ids(g1.dealer.inventory) :: id in Ids(g.dealer.inventory) || g.nextId <= id)
    ensures Valid(StartNextRoundStep(g, r, pSwaps, dSwaps))
  {
    if g.scores.playerHp <= 0 || g.scores.dealerHp <= 0 {
      StartGameFacts(g, pSwaps, dSwaps);
    } else {
      ProcessAiLootFacts(g, r);
      var g1 := ProcessAiLootStep(g, r);
      DealFacts(g1, false, pSwaps, dSwaps);
      PoisonTickFacts(g1);
    }
  }

  /** What confirmLoot does with the selection: nothing without a selection,
      for an id not on offer, or for a full inventory without a chosen slot;
      otherwise the selected offer is pushed into an inventory with room or
      written over the chosen slot. */
  lemma PlayerLootMoveRules(inv: seq<InventoryItem>, offer: seq<InventoryItem>, selected: Option<nat>, swapIndex: Option<nat>)
    requires SwapOk(inv, swapIndex)
    ensures var m := PlayerLootMove(inv, offer, selected, swapIndex);
      && (m.Keep? <==>
            selected.Nothing? || !Holds(offer, HasId(selected.value)) || (|inv| >= MAX_INVENTORY && swapIndex.Nothing?))
      && (m.Add? <==> !m.Keep? && |inv| < MAX_INVENTORY)
      && (!m.Keep? ==> m.item in offer && m.item.id == selected.value)
      && (m.Replace? ==> swapIndex == Some(m.slot))
  {
    if selected.Some? {
      var f := Find(offer, HasId(selected.value));
      if Holds(offer, HasId(selected.value)) {
        var k := FindIndex(offer, HasId(selected.value));
        assert HasId(selected.value)(offer[k]);
      }
      if f.Some? {
        assert HasId(selected.value)(f.value);
      }
    }
  }

  /** confirmLoot keeps the invariant. The offer is cleared; on a restart
      both inventories are empty; otherwise the player's inventory is the
      pick applied to the inventory before it, and the dealer's inventory is
      the dealer's move, chosen with the player's inventory from before the
      pick. */
  lemma ConfirmLootFacts(g: Game, selected: Option<nat>, swapIndex: Option<nat>, r: AiLootRolls,
                         pSwaps: seq<int>, dSwaps: seq<int>)
    requires Valid(g) && g.status == LootSelection
    requires SwapOk(g.player.inventory, swapIndex)
    requires AiLootRollsOk(r, g.dealer.poison > 0)
    requires Deck.ValidSwaps(pSwaps, 52) && Deck.ValidSwaps(dSwaps, 52)
    ensures var g1 := ConfirmLootStep(g, selected, swapIndex, r, pSwaps, dSwaps);
      && g1.lootOptions == []
      && (g.scores.playerHp <= 0 || g.scores.dealerHp <= 0 ==>
            g1.player.inventory == [] && g1.dealer.inventory == [])
      && (g.scores.playerHp > 0 && g.scores.dealerHp > 0 ==>
            && g1.player.inventory == ApplyMove(g.player.inventory,
                 PlayerLootMove(g.player.inventory, g.lootOptions, selected, swapIndex))
            && g1.dealer.inventory == ApplyMove(g.dealer.inventory,
                 AiLootMove(g.dealer.inventory, g.player.inventory, g.dealer.poison > 0, g.scores.dealerHp, g.nextId, r)))
    ensures Valid(ConfirmLootStep(g, selected, swapIndex, r, pSwaps, dSwaps))
  {
    StartNextRoundFacts(g.(lootOptions := []), r, pSwaps, dSwaps);
    ConfirmLootValid(g, selected, swapIndex, r, pSwaps, dSwaps);
  }

  /** confirmLoot keeps the invariant. */
  lemma ConfirmLootValid(g: Game, selected: Option<nat>, swapIndex: Option<nat>, r: AiLootRolls,
                         pSwaps: seq<int>, dSwaps: seq<int>)
    requires Valid(g) && g.status == LootSelection
    requires SwapOk(g.player.inventory, swapIndex)
    requires AiLootRollsOk(r, g.dealer.poison > 0)
    requires Deck.ValidSwaps(pSwaps, 52) && Deck.ValidSwaps(dSwaps, 52)
    ensures Valid(ConfirmLootStep(g, selected, swapIndex, r, pSwaps, dSwaps))
  {
    var g0 := g.(lootOptions := []);
    StartNextRoundFacts(g0, r, pSwaps, dSwaps);
    if g.scores.playerHp > 0 && g.scores.dealerHp > 0 {
      var inv := g.player.inventory;
      var m := PlayerLootMove(inv, g.lootOptions, selected, swapIndex);
      PlayerLootMoveRules(inv, g.lootOptions, selected, swapIndex);
      var g1 := StartNextRoundStep(g0, r, pSwaps, dSwaps);
      PickedValid(g, g1, m);
    }
  }

  /** The player's pick, written into the state after the hand-over, keeps
      the invariant: the picked offer's id is below the old counter, apart
      from both old inventories, and so apart from the dealer's new one. */
  lemma PickedValid(g: Game, g1: Game, m: LootMove)
    requires Valid(g) && Valid(g1)
    requires g1.nextId == g.nextId + 5 && g1.lootOptions == [] && g1.player.inventory == g.player.inventory
    requires forall id | id in Ids(g1.dealer.inventory) :: id in Ids(g.dealer.inventory) || g.nextId <= id
    requires m.Add? ==> |g.player.inventory| < MAX_INVENTORY
    requires m.Replace? ==> m.slot < |g.player.inventory|
    requires !m.Keep? ==> m.item in g.lootOptions
    ensures Valid(g1.(player := g1.player.(inventory := ApplyMove(g.player.inventory, m))))
  {
    var inv := g.player.inventory;
    var n := g1.nextId;
    IdsBelowMono(inv, g.nextId, n);
    forall id | id in Ids(inv) ensures id < g.nextId {
      var i :| 0 <= i < |inv| && inv[i].id == id;
    }
    if !m.Keep? {
      var x := m.item;
      var k :| 0 <= k < |g.lootOptions| && g.lootOptions[k] == x;
      assert x.id in Ids(g.lootOptions);
      assert x.id !in Ids(inv);
      assert x.id !in Ids(g.dealer.inventory);
    }
    MoveOk(inv, m, n);
  }
}

/** The game rules of App.tsx as functions on a snapshot of the game state.
    They are the specification the GameState class is proved against, and the
    lemmas below state what the rules promise about them. */
module Rules {
  import opened Types
  import Deck
  import Items

  const INITIAL_HP := 40
  const MAX_INVENTORY := 3
  const MAX_ROUNDS := 20

  /** One side of the table: the fields App.tsx keeps once for the player
      and once for the dealer. */
  datatype Combatant = Combatant(
    hand: seq<Card>,
    deck: seq<Card>,
    poison: int,
    modifier: int,
    limit: int,
    stood: bool,
    inventory: seq<InventoryItem>)

  /** A snapshot of every rule-relevant state field. `nextId` stands for the
      source's unique item ids: every id handed out is below it. */
  datatype Game = Game(
    status: GameStatus,
    winner: Winner,
    lastDamage: int,
    scores: ScoreState,
    player: Combatant,
    dealer: Combatant,
    lootOptions: seq<InventoryItem>,
    randomChoices: seq<Card>,
    nextId: nat)

  function Max(a: int, b: int): int { if a < b then b else a }
  function Min(a: int, b: int): int { if a < b then a else b }
  function Abs(a: int): int { if a < 0 then -a else a }

  /** A side as it is before the first game. */
  function NewCombatant(): Combatant
  {
    Combatant([], [], 0, 0, 21, false, [])
  }

  /** The initial values of App's state hooks. */
  function InitialGame(): Game
  {
    Game(Idle, None, 0, ScoreState(INITIAL_HP, INITIAL_HP, 0), NewCombatant(), NewCombatant(), [], [], 0)
  }

  function Side(g: Game, isPlayer: bool): Combatant
  {
    if isPlayer then g.player else g.dealer
  }

  function WithSide(g: Game, isPlayer: bool, c: Combatant): Game
  {
    if isPlayer then g.(player := c) else g.(dealer := c)
  }

  function Hp(s: ScoreState, isPlayer: bool): int
  {
    if isPlayer then s.playerHp else s.dealerHp
  }

  function WithHp(s: ScoreState, isPlayer: bool, hp: int): ScoreState
  {
    if isPlayer then s.(playerHp := hp) else s.(dealerHp := hp)
  }

  /** calculateScore(hand) - modifier: the score compared with the limit. */
  function Score(c: Combatant): int
  {
    Deck.HandScore(c.hand) - c.modifier
  }

  /** A freshly created deck shuffled with the swap indices js. */
  function ShuffledDeck(js: seq<int>): (d: seq<Card>)
    requires Deck.ValidSwaps(js, 52)
    ensures |d| == 52
  {
    Deck.SwappedFrom(js, 1)
  }

  /** The shuffled deck holds the 52 cards of the standard deck. */
  lemma ShuffledDeckPermutes(js: seq<int>)
    requires Deck.ValidSwaps(js, 52)
    ensures multiset(ShuffledDeck(js)) == multiset(Deck.StandardDeck())
  {
    Deck.StandardDeckAt(0);
    Deck.FisherYatesPermutes(Deck.StandardDeck(), js, 52);
    Deck.FisherYatesSwaps(js, 52);
  }

  // ---------------------------------------------------------------------
  // Inventories

  /** Array.prototype.findIndex: the first position satisfying p, or -1. */
  function FindIndex(s: seq<InventoryItem>, p: InventoryItem -> bool): (k: int)
    ensures -1 <= k < |s|
    ensures k >= 0 ==> p(s[k])
    ensures forall i | 0 <= i < |s| && (k == -1 || i < k) :: !p(s[i])
  {
    if |s| == 0 then -1
    else if p(s[0]) then 0
    else
      var k := FindIndex(s[1..], p);
      if k == -1 then -1 else k + 1
  }

  /** Array.prototype.find. */
  function Find(s: seq<InventoryItem>, p: InventoryItem -> bool): (r: Option<InventoryItem>)
    ensures r.Nothing? <==> forall i | 0 <= i < |s| :: !p(s[i])
    ensures r.Some? ==> r.value in s && p(r.value)
  {
    var k := FindIndex(s, p);
    if k == -1 then Nothing else Some(s[k])
  }

  /** Array.prototype.some. */
  predicate Holds(s: seq<InventoryItem>, p: InventoryItem -> bool)
  {
    FindIndex(s, p) != -1
  }

  function OfType(t: ItemType): InventoryItem -> bool
  {
    (it: InventoryItem) => it.itemType == t
  }

  function InTypes(ts: set<ItemType>): InventoryItem -> bool
  {
    (it: InventoryItem) => it.itemType in ts
  }

  /** A Heal item of value 50 (the super potion). */
  function IsSuperHeal(): InventoryItem -> bool
  {
    (it: InventoryItem) => it.itemType == Heal && it.value == 50
  }

  /** filter((_, i) => i !== k). */
  function RemoveAt(s: seq<InventoryItem>, k: nat): (r: seq<InventoryItem>)
    requires k < |s|
    ensures |r| == |s| - 1
    ensures forall i | 0 <= i < |r| :: r[i] == if i < k then s[i] else s[i + 1]
  {
    s[..k] + s[k + 1..]
  }

  /** filter(i => i.id !== id). */
  function RemoveById(s: seq<InventoryItem>, id: nat): (r: seq<InventoryItem>)
    ensures |r| <= |s|
  {
    if |s| == 0 then []
    else (if s[0].id == id then [] else [s[0]]) + RemoveById(s[1..], id)
  }

  /** What is left after a removal by id: items of s, none with that id. */
  lemma {:induction false} RemoveByIdMembers(s: seq<InventoryItem>, id: nat)
    ensures forall i | 0 <= i < |RemoveById(s, id)| :: RemoveById(s, id)[i] in s && RemoveById(s, id)[i].id != id
  {
    if |s| > 0 {
      RemoveByIdMembers(s[1..], id);
      var r := RemoveById(s, id);
      var h := if s[0].id == id then [] else [s[0]];
      assert r == h + RemoveById(s[1..], id);
      forall i | 0 <= i < |r| ensures r[i] in s && r[i].id != id {
        if i >= |h| {
          assert r[i] == RemoveById(s[1..], id)[i - |h|];
          assert r[i] in s[1..];
        }
      }
    }
  }

  function Ids(s: seq<InventoryItem>): set<nat>
  {
    set i | 0 <= i < |s| :: s[i].id
  }

  predicate Distinct(s: seq<InventoryItem>)
  {
    forall i, j | 0 <= i < j < |s| :: s[i].id != s[j].id
  }

  predicate IdsBelow(s: seq<InventoryItem>, n: nat)
  {
    forall i | 0 <= i < |s| :: s[i].id < n
  }

  predicate ItemsOk(s: seq<InventoryItem>)
  {
    forall i | 0 <= i < |s| :: Items.ItemOk(s[i])
  }

  /** With distinct ids, removing by the id of slot k removes slot k and
      keeps the order of the others. */
  lemma {:induction false} RemoveByIdAt(s: seq<InventoryItem>, k: nat)
    requires Distinct(s) && k < |s|
    ensures RemoveById(s, s[k].id) == RemoveAt(s, k)
  {
    var t := s[1..];
    if k == 0 {
      assert s[0].id !in Ids(t) by {
        forall i | 0 <= i < |t| ensures t[i].id != s[0].id {
          assert t[i] == s[i + 1];
        }
      }
      RemoveByIdAbsent(t, s[0].id);
      assert RemoveAt(s, 0) == t;
    } else {
      assert Distinct(t) by {
        forall i, j | 0 <= i < j < |t| ensures t[i].id != t[j].id {
          assert t[i] == s[i + 1] && t[j] == s[j + 1];
        }
      }
      assert t[k - 1] == s[k];
      RemoveByIdAt(t, k - 1);
      assert RemoveAt(s, k) == [s[0]] + RemoveAt(t, k - 1);
    }
  }

  lemma {:induction false} RemoveByIdAbsent(s: seq<InventoryItem>, id: nat)
    requires id !in Ids(s)
    ensures RemoveById(s, id) == s
  {
    if |s| > 0 {
      var t := s[1..];
      assert s[0].id in Ids(s);
      assert id !in Ids(t) by {
        forall i | 0 <= i < |t| ensures t[i].id != id {
          assert t[i] == s[i + 1];
          assert s[i + 1].id in Ids(s);
        }
      }
      RemoveByIdAbsent(t, id);
      assert s == [s[0]] + t;
    }
  }

  /** Ids after appending. */
  lemma IdsAppend(s: seq<InventoryItem>, x: InventoryItem)
    ensures Ids(s + [x]) == Ids(s) + {x.id}
  {
    forall id ensures id in Ids(s + [x]) <==> id in Ids(s) + {x.id} {
      if id in Ids(s) {
        var i :| 0 <= i < |s| && s[i].id == id;
        assert (s + [x])[i].id == id;
      }
      if id == x.id {
        assert (s + [x])[|s|].id == id;
      }
    }
  }

  /** A well-formed inventory: catalog items with distinct ids below n. */
  predicate InventoryOk(s: seq<InventoryItem>, n: nat)
  {
    ItemsOk(s) && Distinct(s) && IdsBelow(s, n)
  }

  lemma AppendOk(s: seq<InventoryItem>, x: InventoryItem, n: nat)
    requires InventoryOk(s, n) && Items.ItemOk(x) && x.id < n && x.id !in Ids(s)
    ensures InventoryOk(s + [x], n)
    ensures Ids(s + [x]) == Ids(s) + {x.id}
  {
    IdsAppend(s, x);
    forall i | 0 <= i < |s| ensures s[i].id != x.id {
      assert s[i].id in Ids(s);
    }
  }

  lemma RemoveAtOk(s: seq<InventoryItem>, k: nat, n: nat)
    requires InventoryOk(s, n) && k < |s|
    ensures InventoryOk(RemoveAt(s, k), n)
    ensures Ids(RemoveAt(s, k)) == Ids(s) - {s[k].id}
  {
    RemoveAtKeepsOk(s, k, n);
    RemoveAtIds(s, k);
  }

  lemma RemoveAtKeepsOk(s: seq<InventoryItem>, k: nat, n: nat)
    requires InventoryOk(s, n) && k < |s|
    ensures InventoryOk(RemoveAt(s, k), n)
  {
    var r := RemoveAt(s, k);
    forall i, j | 0 <= i < j < |r| ensures r[i].id != r[j].id {
      var a := if i < k then i else i + 1;
      var b := if j < k then j else j + 1;
      assert r[i] == s[a] && r[j] == s[b] && a < b;
    }
    forall i | 0 <= i < |r| ensures Items.ItemOk(r[i]) && r[i].id < n {
      assert r[i] == s[if i < k then i else i + 1];
    }
  }

  lemma RemoveAtIds(s: seq<InventoryItem>, k: nat)
    requires Distinct(s) && k < |s|
    ensures Ids(RemoveAt(s, k)) == Ids(s) - {s[k].id}
  {
    var r := RemoveAt(s, k);
    forall id | id in Ids(s) - {s[k].id} ensures id in Ids(r) {
      var i :| 0 <= i < |s| && s[i].id == id;
      if i < k { assert r[i].id == id; } else { assert r[i - 1].id == id; }
    }
    forall id | id in Ids(r) ensures id in Ids(s) - {s[k].id} {
      var i :| 0 <= i < |r| && r[i].id == id;
      var a := if i < k then i else i + 1;
      assert s[a].id == id && a != k;
    }
  }

  lemma ReplaceOk(s: seq<InventoryItem>, k: nat, x: InventoryItem, n: nat)
    requires InventoryOk(s, n) && k < |s| && Items.ItemOk(x) && x.id < n && x.id !in Ids(s)
    ensures InventoryOk(s[k := x], n)
    ensures Ids(s[k := x]) <= Ids(s) + {x.id}
  {
    var r := s[k := x];
    forall i | 0 <= i < |s| ensures s[i].id != x.id {
      assert s[i].id in Ids(s);
    }
    forall id | id in Ids(r) ensures id in Ids(s) + {x.id} {
      var i :| 0 <= i < |r| && r[i].id == id;
      if i != k { assert s[i].id == id; }
    }
  }

  lemma IdsBelowMono(s: seq<InventoryItem>, n: nat, m: nat)
    requires IdsBelow(s, n) && n <= m
    ensures IdsBelow(s, m)
  {
  }

  // ---------------------------------------------------------------------
  // The state invariant

  predicate CombatantOk(c: Combatant)
  {
    && c.poison >= 0
    && c.limit in {20, 21, 22}
    && |c.inventory| <= MAX_INVENTORY
  }

  /** What every handler preserves: hit points in [0, 40], at most 20 rounds
      and fewer unless the game is over, non-negative poison, limits 20..22,
      at most three catalog items per inventory, and item ids that are unique
      across both inventories and the loot on offer. */
  predicate Valid(g: Game)
  {
    && 0 <= g.scores.playerHp <= INITIAL_HP
    && 0 <= g.scores.dealerHp <= INITIAL_HP
    && 0 <= g.scores.roundsPlayed <= MAX_ROUNDS
    && (g.status != GameOver ==> g.scores.roundsPlayed < MAX_ROUNDS)
    && CombatantOk(g.player)
    && CombatantOk(g.dealer)
    && InventoryOk(g.player.inventory, g.nextId)
    && InventoryOk(g.dealer.inventory, g.nextId)
    && InventoryOk(g.lootOptions, g.nextId)
    && Ids(g.player.inventory) !! Ids(g.dealer.inventory)
    && Ids(g.player.inventory) !! Ids(g.lootOptions)
    && Ids(g.dealer.inventory) !! Ids(g.lootOptions)
  }

  lemma InitialValid()
    ensures Valid(InitialGame())
  {
  }

  // ---------------------------------------------------------------------
  // Poison tick and deal

  /** Whether applyPoison ends the game: some side had stacks and a hit
      point total reached 0. */
  predicate PoisonKills(g: Game)
  {
    && (g.player.poison > 0 || g.dealer.poison > 0)
    && (Max(0, g.scores.playerHp - g.player.poison) == 0 || Max(0, g.scores.dealerHp - g.dealer.poison) == 0)
  }

  /** applyPoison: each side loses its own stacks, floored at 0; the stacks
      stay. A side reaching 0 ends the game, the winner being the dealer when
      the player is at 0. */
  function PoisonTick(g: Game): Game
  {
    if g.player.poison > 0 || g.dealer.poison > 0 then
      var pHp := Max(0, g.scores.playerHp - g.player.poison);
      var dHp := Max(0, g.scores.dealerHp - g.dealer.poison);
      var g1 := g.(scores := g.scores.(playerHp := pHp, dealerHp := dHp));
      if pHp == 0 || dHp == 0 then g1.(winner := if pHp == 0 then Dealer else Player, status := GameOver)
      else g1
    else g
  }

  /** A side at the start of a round: the top two cards of a freshly shuffled
      deck (popped from its end) form the hand, 50 cards stay. */
  function DealtSide(c: Combatant, js: seq<int>): Combatant
    requires Deck.ValidSwaps(js, 52)
  {
    var d := ShuffledDeck(js);
    c.(hand := [d[51], d[50]], deck := d[..50], modifier := 0, stood := false)
  }

  /** The deal after the poison tick. */
  function DealHands(g: Game, pSwaps: seq<int>, dSwaps: seq<int>): Game
    requires Deck.ValidSwaps(pSwaps, 52) && Deck.ValidSwaps(dSwaps, 52)
  {
    g.(player := DealtSide(g.player, pSwaps), dealer := DealtSide(g.dealer, dSwaps),
       winner := None, lastDamage := 0, status := PlayerTurn)
  }

  /** dealRound: unless ignorePoison, the poison tick first; a tick that ends
      the game stops the deal. */
  function DealRoundStep(g: Game, ignorePoison: bool, pSwaps: seq<int>, dSwaps: seq<int>): Game
    requires Deck.ValidSwaps(pSwaps, 52) && Deck.ValidSwaps(dSwaps, 52)
  {
    if ignorePoison then DealHands(g, pSwaps, dSwaps)
    else if PoisonKills(g) then PoisonTick(g)
    else DealHands(PoisonTick(g), pSwaps, dSwaps)
  }

  /** startGame: full hit points, round 0, empty inventories, no poison,
      limits back to 21, then a deal without the poison tick. */
  function StartGameStep(g: Game, pSwaps: seq<int>, dSwaps: seq<int>): Game
    requires Deck.ValidSwaps(pSwaps, 52) && Deck.ValidSwaps(dSwaps, 52)
  {
    var g1 := g.(scores := ScoreState(INITIAL_HP, INITIAL_HP, 0),
                 player := g.player.(inventory := [], poison := 0, limit := 21),
                 dealer := g.dealer.(inventory := [], poison := 0, limit := 21));
    DealRoundStep(g1, true, pSwaps, dSwaps)
  }

  // ---------------------------------------------------------------------
  // Round resolution

  /** endRoundCheck: a player bust is a dealer win even when the dealer also
      busts; then a dealer bust is a player win; then the higher score wins;
      equal scores are a push. */
  function RoundWinner(pScore: int, pLimit: int, dScore: int, dLimit: int): Winner
  {
    if pScore > pLimit then Dealer
    else if dScore > dLimit then Player
    else if pScore > dScore then Player
    else if dScore > pScore then Dealer
    else Push
  }

  /** The damage of endRound, on scores floored at 0: the winner's own score
      when exactly one side busted, the difference otherwise. */
  function RoundDamage(p: int, pLimit: int, d: int, dLimit: int): int
  {
    if p > pLimit && d <= dLimit then d
    else if d > dLimit && p <= pLimit then p
    else Abs(p - d)
  }

  /** Three draws for the next loot offer. */
  predicate LootDrawsOk(rs: seq<int>, isPoisoned: bool)
  {
    |rs| == 3 && Items.ValidDraws(rs, isPoisoned)
  }

  /** The damage endRound deals, from the current hands' scores floored at 0. */
  function EndDamage(g: Game): int
  {
    RoundDamage(Max(0, Score(g.player)), g.player.limit, Max(0, Score(g.dealer)), g.dealer.limit)
  }

  /** The scores after a round: rounds + 1 and the damage off the loser's
      hit points, floored at 0; a push costs nothing. */
  function RoundScores(s: ScoreState, w: Winner, damage: int): ScoreState
  {
    var s0 := s.(roundsPlayed := s.roundsPlayed + 1);
    if w == Player then s0.(dealerHp := Max(0, s0.dealerHp - damage))
    else if w == Dealer then s0.(playerHp := Max(0, s0.playerHp - damage))
    else s0
  }

  /** endRound with the current hands: damage to the loser, rounds + 1, then
      game over at 20 rounds or 0 hit points, else three loot options drawn
      for the player (Antidote favoured when the player is poisoned). */
  function EndRoundStep(g: Game, w: Winner, loot: seq<int>): Game
    requires LootDrawsOk(loot, g.player.poison > 0)
  {
    var damage := EndDamage(g);
    var s := RoundScores(g.scores, w, damage);
    var g1 := g.(lastDamage := damage, scores := s, winner := w);
    if s.roundsPlayed >= MAX_ROUNDS || s.playerHp <= 0 || s.dealerHp <= 0 then g1.(status := GameOver)
    else g1.(lootOptions := Items.LootOptions(g.player.poison > 0, loot, g.nextId),
             nextId := g.nextId + 3, status := LootSelection)
  }

  function EndRoundCheckStep(g: Game, loot: seq<int>): Game
    requires LootDrawsOk(loot, g.player.poison > 0)
  {
    EndRoundStep(g, RoundWinner(Score(g.player), g.player.limit, Score(g.dealer), g.dealer.limit), loot)
  }

  // ---------------------------------------------------------------------
  // The player's moves

  /** Whether a bust can still be repaired: a ScoreModifier or a Thief held. */
  predicate CanRecover(c: Combatant)
  {
    Holds(c.inventory, OfType(ScoreModifier)) || Holds(c.inventory, OfType(Thief))
  }

  /** handleHit: nothing on an empty deck; else the deck's last card joins the
      hand; over the limit the round is lost unless a bust can be repaired
      (BustRecovery); within it the dealer moves. */
  function HitStep(g: Game, loot: seq<int>): Game
    requires LootDrawsOk(loot, g.player.poison > 0)
  {
    var deck := g.player.deck;
    if |deck| == 0 then g
    else
      AfterHitCard(g.(player := g.player.(deck := deck[..|deck| - 1], hand := g.player.hand + [deck[|deck| - 1]])), loot)
  }

  /** What follows the player's new card: over the limit, BustRecovery when
      the bust can be repaired and a lost round when not; within it the
      dealer moves. */
  function AfterHitCard(g: Game, loot: seq<int>): Game
    requires LootDrawsOk(loot, g.player.poison > 0)
  {
    if Score(g.player) > g.player.limit then
      if CanRecover(g.player) then g.(status := BustRecovery)
      else EndRoundStep(g, Dealer, loot)
    else g.(status := DealerTurn)
  }

  /** handleStand: surrendering in BustRecovery while still over the limit
      loses the round; otherwise the player stands and the dealer moves. */
  function StandStep(g: Game, loot: seq<int>): Game
    requires LootDrawsOk(loot, g.player.poison > 0)
  {
    if g.status == BustRecovery && Score(g.player) > g.player.limit then EndRoundStep(g, Dealer, loot)
    else g.(player := g.player.(stood := true), status := DealerTurn)
  }

  /** handleChoiceCard: the chosen card joins the player's hand. */
  function ChooseCardStep(g: Game, k: nat): Game
    requires k < |g.randomChoices|
  {
    g.(player := g.player.(hand := g.player.hand + [g.randomChoices[k]]), status := PlayerTurn, randomChoices := [])
  }

  /** configureLimit. */
  function ConfigureLimitStep(g: Game, toPlayer: bool, val: int): Game
  {
    var c := Side(g, toPlayer);
    WithSide(g, toPlayer, c.(limit := val)).(status := PlayerTurn)
  }

  // ---------------------------------------------------------------------
  // Items

  /** The random inputs of one item use: swap indices for the deck a
      ChoiceCard shuffles, and a pick for the random Thief target. */
  datatype ItemRolls = ItemRolls(swaps: seq<int>, stealPick: nat)

  predicate ItemRollsOk(r: ItemRolls)
  {
    Deck.ValidSwaps(r.swaps, 52)
  }

  /** slice(0, -1). */
  function DropLast(h: seq<Card>): seq<Card>
  {
    if |h| == 0 then [] else h[..|h| - 1]
  }

  /** The slot a Thief takes from the inventory inv: the dealer prefers a
      value-50 Heal, then any Heal; otherwise the slot is random, taken here
      as pick modulo the size. */
  function StealTarget(inv: seq<InventoryItem>, isPlayer: bool, pick: nat): (k: nat)
    requires |inv| > 0
    ensures k < |inv|
  {
    var super := FindIndex(inv, IsSuperHeal());
    var heal := FindIndex(inv, OfType(Heal));
    if !isPlayer && super != -1 then super
    else if !isPlayer && heal != -1 then heal
    else pick % |inv|
  }

  /** The effect of one item, before it leaves the user's inventory. */
  function ItemEffect(g: Game, isPlayer: bool, item: InventoryItem, r: ItemRolls): Game
    requires ItemRollsOk(r)
  {
    var me := Side(g, isPlayer);
    var opp := Side(g, !isPlayer);
    match item.itemType
    case Heal =>
      g.(scores := WithHp(g.scores, isPlayer, Min(INITIAL_HP, Hp(g.scores, isPlayer) + item.value)))
    case ScoreModifier =>
      var g1 := WithSide(g, isPlayer, me.(modifier := me.modifier + item.value));
      if isPlayer && g.status == BustRecovery && Deck.HandScore(me.hand) - (me.modifier + item.value) <= me.limit
      then g1.(status := PlayerTurn)
      else g1
    case ScoreBoost =>
      WithSide(g, isPlayer, me.(modifier := me.modifier - item.value))
    case Poison =>
      WithSide(g, !isPlayer, opp.(poison := opp.poison + item.value))
    case Antidote =>
      WithSide(g, isPlayer, me.(poison := 0))
    case ChoiceCard =>
      ChoiceCardUse(g, isPlayer, r.swaps)
    case Sabotage =>
      WithSide(g, !isPlayer, opp.(hand := DropLast(opp.hand)))
    case HandSwap =>
      var g1 := g.(player := g.player.(hand := g.dealer.hand), dealer := g.dealer.(hand := g.player.hand));
      if isPlayer then
        g1.(dealer := g1.dealer.(stood := false))
      else if g.player.stood then
        g1.(player := g1.player.(stood := false), status := if g.status == DealerTurn then PlayerTurn else g.status)
      else g1
    case SeeNext3 =>
      if isPlayer then g.(status := ViewingDeck) else g
    case Spy =>
      if isPlayer then g.(status := Spying) else g
    case ScoreLimitChange =>
      if isPlayer then g.(status := ConfiguringLimit) else g.(player := g.player.(limit := 20))
    case Thief =>
      ThiefSteal(g, isPlayer, r.stealPick)
  }

  /** A Thief moves the chosen item of a non-empty opposing inventory to the
      end of the user's; against an empty one it takes nothing. */
  function ThiefSteal(g: Game, isPlayer: bool, pick: nat): Game
  {
    var me := Side(g, isPlayer);
    var opp := Side(g, !isPlayer);
    if |opp.inventory| == 0 then g
    else
      var k := StealTarget(opp.inventory, isPlayer, pick);
      var g1 := WithSide(g, !isPlayer, opp.(inventory := RemoveAt(opp.inventory, k)));
      WithSide(g1, isPlayer, me.(inventory := me.inventory + [opp.inventory[k]]))
  }

  /** A ChoiceCard shuffles a fresh deck: the player is offered its first
      three cards, the dealer takes its last. */
  function ChoiceCardUse(g: Game, isPlayer: bool, js: seq<int>): Game
    requires Deck.ValidSwaps(js, 52)
  {
    var shuffled := ShuffledDeck(js);
    if isPlayer then g.(randomChoices := shuffled[..3], status := ChoosingRandomCard)
    else g.(dealer := g.dealer.(hand := g.dealer.hand + [shuffled[51]]))
  }

  /** Only a ScoreModifier or a Thief can be used during BustRecovery. */
  predicate Blocked(status: GameStatus, t: ItemType)
  {
    status == BustRecovery && t != ScoreModifier && t != Thief
  }

  /** handleUseItem for the item in slot `index` of the user's inventory:
      the effect, then the item is removed from the user's inventory by id. */
  function UseItemStep(g: Game, isPlayer: bool, index: nat, r: ItemRolls): Game
    requires index < |Side(g, isPlayer).inventory| && ItemRollsOk(r)
  {
    var item := Side(g, isPlayer).inventory[index];
    if Blocked(g.status, item.itemType) then g
    else
      var g1 := ItemEffect(g, isPlayer, item, r);
      var me := Side(g1, isPlayer);
      WithSide(g1, isPlayer, me.(inventory := RemoveById(me.inventory, item.id)))
  }

  // ---------------------------------------------------------------------
  // What the poison tick, the deal and a new game promise

  /** applyPoison takes each side's own stacks off its hit points, floored at
      0, and changes nothing else unless the game ends; it ends the game
      exactly when a side that had hit points reaches 0, the dealer winning
      when the player is at 0. */
  lemma PoisonTickFacts(g: Game)
    requires Valid(g)
    ensures PoisonTick(g).scores
         == g.scores.(playerHp := Max(0, g.scores.playerHp - g.player.poison),
                      dealerHp := Max(0, g.scores.dealerHp - g.dealer.poison))
    ensures PoisonTick(g).player == g.player && PoisonTick(g).dealer == g.dealer
    ensures g.scores.playerHp > 0 && g.scores.dealerHp > 0 ==>
      (PoisonKills(g) <==> PoisonTick(g).scores.playerHp == 0 || PoisonTick(g).scores.dealerHp == 0)
    ensures PoisonKills(g) ==>
      PoisonTick(g).status == GameOver
      && PoisonTick(g).winner == (if PoisonTick(g).scores.playerHp == 0 then Dealer else Player)
    ensures !PoisonKills(g) ==>
      PoisonTick(g) == g.(scores := PoisonTick(g).scores)
    ensures Valid(PoisonTick(g))
  {
  }

  /** Unless stopped by poison, a deal leaves each side the top two cards of a
      freshly shuffled deck as its hand and the other 50 as its deck (hand and
      deck together are the 52 cards), clears modifiers and stood flags, and
      hands the turn to the player; inventories, limits, poison and the rounds
      count stay, and so do the loot on offer and the id counter. */
  lemma DealFacts(g: Game, ignorePoison: bool, pSwaps: seq<int>, dSwaps: seq<int>)
    requires Valid(g) && g.scores.roundsPlayed < MAX_ROUNDS
    requires Deck.ValidSwaps(pSwaps, 52) && Deck.ValidSwaps(dSwaps, 52)
    ensures !ignorePoison && PoisonKills(g) ==> DealRoundStep(g, ignorePoison, pSwaps, dSwaps) == PoisonTick(g)
    ensures ignorePoison || !PoisonKills(g) ==>
      var g1 := DealRoundStep(g, ignorePoison, pSwaps, dSwaps);
      && g1.status == PlayerTurn && g1.winner == None && g1.lastDamage == 0
      && g1.scores == (if ignorePoison then g.scores else PoisonTick(g).scores)
      && DealtFresh(g.player, g1.player) && DealtFresh(g.dealer, g1.dealer)
    ensures var g1 := DealRoundStep(g, ignorePoison, pSwaps, dSwaps);
      && g1.player.inventory == g.player.inventory && g1.dealer.inventory == g.dealer.inventory
      && g1.lootOptions == g.lootOptions && g1.nextId == g.nextId
    ensures Valid(DealRoundStep(g, ignorePoison, pSwaps, dSwaps))
  {
    PoisonTickFacts(g);
    if ignorePoison {
      DealHandsFacts(g, pSwaps, dSwaps);
    } else if !PoisonKills(g) {
      DealHandsFacts(PoisonTick(g), pSwaps, dSwaps);
    }
  }

  lemma DealHandsFacts(g: Game, pSwaps: seq<int>, dSwaps: seq<int>)
    requires Valid(g) && g.scores.roundsPlayed < MAX_ROUNDS
    requires Deck.ValidSwaps(pSwaps, 52) && Deck.ValidSwaps(dSwaps, 52)
    ensures var g1 := DealHands(g, pSwaps, dSwaps);
      && g1.status == PlayerTurn && g1.winner == None && g1.lastDamage == 0 && g1.scores == g.scores
      && DealtFresh(g.player, g1.player) && DealtFresh(g.dealer, g1.dealer)
    ensures Valid(DealHands(g, pSwaps, dSwaps))
  {
    DealtSideFacts(g.player, pSwaps);
    DealtSideFacts(g.dealer, dSwaps);
  }

  /** c1 is c after a deal. */
  predicate DealtFresh(c: Combatant, c1: Combatant)
  {
    && |c1.hand| == 2 && |c1.deck| == 50
    && multiset(c1.hand + c1.deck) == multiset(Deck.StandardDeck())
    && c1.modifier == 0 && !c1.stood
    && c1.poison == c.poison && c1.limit == c.limit && c1.inventory == c.inventory
  }

  lemma DealtSideFacts(c: Combatant, js: seq<int>)
    requires Deck.ValidSwaps(js, 52)
    ensures DealtFresh(c, DealtSide(c, js))
    ensures DealtSide(c, js).hand == [ShuffledDeck(js)[51], ShuffledDeck(js)[50]]
  {
    var d := ShuffledDeck(js);
    ShuffledDeckPermutes(js);
    TopTwoSplit(d);
  }

  /** Taking the last two cards off a deck keeps its cards. */
  lemma TopTwoSplit(d: seq<Card>)
    requires |d| == 52
    ensures multiset([d[51], d[50]] + d[..50]) == multiset(d)
  {
    assert d == d[..50] + [d[50], d[51]];
    calc {
      multiset([d[51], d[50]] + d[..50]);
      multiset([d[51], d[50]]) + multiset(d[..50]);
      multiset(d[..50] + [d[50], d[51]]);
    }
  }

  /** startGame: a fresh game (40/40 hit points, round 0, empty inventories,
      no poison, limits 21) dealt without a poison tick. */
  lemma StartGameFacts(g: Game, pSwaps: seq<int>, dSwaps: seq<int>)
    requires Valid(g) && Deck.ValidSwaps(pSwaps, 52) && Deck.ValidSwaps(dSwaps, 52)
    ensures var g1 := StartGameStep(g, pSwaps, dSwaps);
      && g1.scores == ScoreState(INITIAL_HP, INITIAL_HP, 0)
      && g1.status == PlayerTurn && g1.winner == None
      && g1.player.inventory == [] && g1.dealer.inventory == []
      && g1.player.poison == 0 && g1.dealer.poison == 0
      && g1.player.limit == 21 && g1.dealer.limit == 21
      && |g1.player.hand| == 2 && |g1.dealer.hand| == 2
    ensures Valid(StartGameStep(g, pSwaps, dSwaps))
  {
    var g1 := g.(scores := ScoreState(INITIAL_HP, INITIAL_HP, 0),
                 player := g.player.(inventory := [], poison := 0, limit := 21),
                 dealer := g.dealer.(inventory := [], poison := 0, limit := 21));
    DealFacts(g1, true, pSwaps, dSwaps);
  }

  // ---------------------------------------------------------------------
  // What round resolution promises

  /** The winner rules as conditions: the dealer wins on a player bust or a
      higher non-bust score, the player on a dealer bust or a higher score
      while within the limit, equal non-bust scores push; a double bust goes
      to the dealer. */
  lemma RoundWinnerRules(p: int, pLimit: int, d: int, dLimit: int)
    ensures RoundWinner(p, pLimit, d, dLimit) != None
    ensures RoundWinner(p, pLimit, d, dLimit) == Dealer <==> p > pLimit || (d <= dLimit && d > p)
    ensures RoundWinner(p, pLimit, d, dLimit) == Player <==> p <= pLimit && (d > dLimit || p > d)
    ensures RoundWinner(p, pLimit, d, dLimit) == Push <==> p <= pLimit && d <= dLimit && p == d
    ensures p > pLimit && d > dLimit ==> RoundWinner(p, pLimit, d, dLimit) == Dealer
  {
  }

  /** Damage is never negative and at most the larger score; when only one
      side busted it is the score of the side that did not. */
  lemma RoundDamageRules(p: int, pLimit: int, d: int, dLimit: int)
    requires p >= 0 && d >= 0
    ensures 0 <= RoundDamage(p, pLimit, d, dLimit) <= Max(p, d)
    ensures p > pLimit && d <= dLimit ==> RoundDamage(p, pLimit, d, dLimit) == d
    ensures d > dLimit && p <= pLimit ==> RoundDamage(p, pLimit, d, dLimit) == p
    ensures (p > pLimit) == (d > dLimit) ==> RoundDamage(p, pLimit, d, dLimit) == Abs(p - d)
  {
  }

  /** Worked rounds: a player bust at 25 against 18 costs the player 18; 20
      against 17 costs the dealer 3; 19 against 19 is a push. */
  lemma RoundExamples()
    ensures RoundWinner(25, 21, 18, 21) == Dealer && RoundDamage(25, 21, 18, 21) == 18
    ensures RoundWinner(20, 21, 17, 21) == Player && RoundDamage(20, 21, 17, 21) == 3
    ensures RoundWinner(19, 21, 19, 21) == Push
    ensures RoundWinner(23, 21, 24, 21) == Dealer && RoundDamage(23, 21, 24, 21) == 1
  {
  }

  /** Freshly drawn loot: catalog items whose ids firstId, firstId + 1, ...
      are distinct and clash with no id below firstId. */
  lemma FreshLootOk(isPoisoned: bool, rs: seq<int>, firstId: nat, n: nat)
    requires Items.ValidDraws(rs, isPoisoned) && n <= firstId
    ensures InventoryOk(Items.LootOptions(isPoisoned, rs, firstId), firstId + |rs|)
    ensures forall id | id in Ids(Items.LootOptions(isPoisoned, rs, firstId)) :: firstId <= id < firstId + |rs|
  {
  }

  /** Ids below n are apart from ids at or above n. */
  lemma ApartBelow(s: seq<InventoryItem>, t: seq<InventoryItem>, n: nat)
    requires IdsBelow(s, n)
    requires forall id | id in Ids(t) :: n <= id
    ensures Ids(s) !! Ids(t)
  {
    forall id | id in Ids(s) ensures id !in Ids(t) {
      var i :| 0 <= i < |s| && s[i].id == id;
    }
  }

  /** endRound: rounds + 1; the winner's opponent loses the damage, floored
      at 0, and a push costs nothing; the hands, decks and inventories stay;
      the game is over exactly at 20 rounds or 0 hit points, and otherwise
      three fresh loot options are on offer. */
  lemma EndRoundFacts(g: Game, w: Winner, loot: seq<int>)
    requires Valid(g) && g.scores.roundsPlayed < MAX_ROUNDS && LootDrawsOk(loot, g.player.poison > 0)
    ensures var g1 := EndRoundStep(g, w, loot);
      var damage := RoundDamage(Max(0, Score(g.player)), g.player.limit, Max(0, Score(g.dealer)), g.dealer.limit);
      && g1.scores.roundsPlayed == g.scores.roundsPlayed + 1
      && g1.winner == w && g1.lastDamage == damage && damage >= 0
      && g1.player == g.player && g1.dealer == g.dealer
      && (w == Player ==> g1.scores.dealerHp == Max(0, g.scores.dealerHp - damage) && g1.scores.playerHp == g.scores.playerHp)
      && (w == Dealer ==> g1.scores.playerHp == Max(0, g.scores.playerHp - damage) && g1.scores.dealerHp == g.scores.dealerHp)
      && (w != Player && w != Dealer ==> g1.scores.playerHp == g.scores.playerHp && g1.scores.dealerHp == g.scores.dealerHp)
      && (g1.status == GameOver <==>
            g1.scores.roundsPlayed >= MAX_ROUNDS || g1.scores.playerHp == 0 || g1.scores.dealerHp == 0)
      && (g1.status != GameOver ==>
            g1.status == LootSelection && g1.lootOptions == Items.LootOptions(g.player.poison > 0, loot, g.nextId))
    ensures Valid(EndRoundStep(g, w, loot))
  {
    RoundDamageRules(Max(0, Score(g.player)), g.player.limit, Max(0, Score(g.dealer)), g.dealer.limit);
    EndRoundValid(g, w, loot);
  }

  /** endRound keeps the invariant: the fresh loot takes ids no inventory
      holds. */
  lemma EndRoundValid(g: Game, w: Winner, loot: seq<int>)
    requires Valid(g) && g.scores.roundsPlayed < MAX_ROUNDS && LootDrawsOk(loot, g.player.poison > 0)
    ensures Valid(EndRoundStep(g, w, loot))
  {
    var g1 := EndRoundStep(g, w, loot);
    RoundDamageRules(Max(0, Score(g.player)), g.player.limit, Max(0, Score(g.dealer)), g.dealer.limit);
    if g1.status != GameOver {
      FreshLootOk(g.player.poison > 0, loot, g.nextId, g.nextId);
      ApartBelow(g.player.inventory, g1.lootOptions, g.nextId);
      ApartBelow(g.dealer.inventory, g1.lootOptions, g.nextId);
    }
  }

  // ---------------------------------------------------------------------
  // What hit and stand promise

  /** handleHit: an empty deck changes nothing; otherwise the deck's last card
      moves to the hand, and then BustRecovery follows exactly when the new
      score is over the limit and a ScoreModifier or Thief is held, the round
      is lost when it is over the limit with neither, and the dealer moves
      when it is within the limit. */
  lemma HitFacts(g: Game, loot: seq<int>)
    requires Valid(g) && g.status == PlayerTurn && LootDrawsOk(loot, g.player.poison > 0)
    ensures |g.player.deck| == 0 ==> HitStep(g, loot) == g
    ensures |g.player.deck| > 0 ==>
      var g1 := HitStep(g, loot);
      var n := |g.player.deck|;
      var c := g.player.(deck := g.player.deck[..n - 1], hand := g.player.hand + [g.player.deck[n - 1]]);
      && g1.player == c
      && (g1.status == BustRecovery <==> Score(c) > c.limit && CanRecover(g.player))
      && (Score(c) > c.limit && !CanRecover(g.player) ==>
            g1.winner == Dealer && g1.scores.roundsPlayed == g.scores.roundsPlayed + 1
            && (g1.status == GameOver || g1.status == LootSelection))
      && (Score(c) <= c.limit ==> g1 == g.(player := c, status := DealerTurn))
    ensures Valid(HitStep(g, loot))
  {
    var n := |g.player.deck|;
    if n > 0 {
      var c := g.player.(deck := g.player.deck[..n - 1], hand := g.player.hand + [g.player.deck[n - 1]]);
      if Score(c) > c.limit && !CanRecover(g.player) {
        EndRoundFacts(g.(player := c), Dealer, loot);
      }
    }
  }

  /** handleStand: surrendering out of BustRecovery while over the limit loses
      the round; otherwise the player stands and the dealer moves. */
  lemma StandFacts(g: Game, loot: seq<int>)
    requires Valid(g) && (g.status == PlayerTurn || g.status == BustRecovery)
    requires LootDrawsOk(loot, g.player.poison > 0)
    ensures g.status == BustRecovery && Score(g.player) > g.player.limit ==>
      var g1 := StandStep(g, loot);
      && g1.winner == Dealer && g1.scores.roundsPlayed == g.scores.roundsPlayed + 1
      && (g1.status == GameOver || g1.status == LootSelection)
    ensures !(g.status == BustRecovery && Score(g.player) > g.player.limit) ==>
      StandStep(g, loot) == g.(player := g.player.(stood := true), status := DealerTurn)
    ensures Valid(StandStep(g, loot))
  {
    if g.status == BustRecovery && Score(g.player) > g.player.limit {
      EndRoundFacts(g, Dealer, loot);
    }
  }

  /** handleChoiceCard and configureLimit keep the invariant. */
  lemma ChooseCardFacts(g: Game, k: nat)
    requires Valid(g) && g.status == ChoosingRandomCard && k < |g.randomChoices|
    ensures ChooseCardStep(g, k).player.hand == g.player.hand + [g.randomChoices[k]]
    ensures ChooseCardStep(g, k).status == PlayerTurn && ChooseCardStep(g, k).randomChoices == []
    ensures Valid(ChooseCardStep(g, k))
  {
  }

  lemma ConfigureLimitFacts(g: Game, toPlayer: bool, val: int)
    requires Valid(g) && g.status == ConfiguringLimit && (val == 20 || val == 22)
    ensures Side(ConfigureLimitStep(g, toPlayer, val), toPlayer).limit == val
    ensures Side(ConfigureLimitStep(g, toPlayer, val), !toPlayer) == Side(g, !toPlayer)
    ensures Valid(ConfigureLimitStep(g, toPlayer, val))
  {
  }

  // ---------------------------------------------------------------------
  // What item use promises

  /** The statuses in which items are used: the player's turn or bust
      recovery for the player, the dealer's turn for the dealer. */
  predicate ItemTurn(g: Game, isPlayer: bool)
  {
    if isPlayer then g.status == PlayerTurn || g.status == BustRecovery else g.status == DealerTurn
  }

  /** Every effect but Thief's leaves the inventories and the loot alone and
      keeps the invariant. */
  lemma EffectKeepsValid(g: Game, isPlayer: bool, item: InventoryItem, r: ItemRolls)
    requires Valid(g) && ItemTurn(g, isPlayer) && Items.ItemOk(item) && item.itemType != Thief && ItemRollsOk(r)
    ensures var g1 := ItemEffect(g, isPlayer, item, r);
      && g1.player.inventory == g.player.inventory && g1.dealer.inventory == g.dealer.inventory
      && g1.lootOptions == g.lootOptions && g1.nextId == g.nextId
      && g1.scores.roundsPlayed == g.scores.roundsPlayed
      && Valid(g1)
  {
  }

  /** What each effect does to its user and the opponent. Heal caps at 40;
      ScoreModifier lowers the user's score by its value and, used by the
      player in BustRecovery, returns to PlayerTurn exactly when that brings
      the score within the limit; ScoreBoost raises the user's score by its
      value; Poison adds to the opponent's stacks; Antidote clears the user's;
      Sabotage drops the opponent's last card; HandSwap exchanges the hands
      and clears the stood flag of the side receiving the swapped-in hand
      (the dealer's swap also hands the turn back to a stood player); the
      dealer's ScoreLimitChange sets the player's limit to 20. */
  lemma EffectRules(g: Game, isPlayer: bool, item: InventoryItem, r: ItemRolls)
    requires Valid(g) && ItemTurn(g, isPlayer) && Items.ItemOk(item) && ItemRollsOk(r)
    ensures var g1 := ItemEffect(g, isPlayer, item, r);
      var me := Side(g, isPlayer);
      var opp := Side(g, !isPlayer);
      && (item.itemType == Heal ==>
            Hp(g1.scores, isPlayer) == Min(INITIAL_HP, Hp(g.scores, isPlayer) + item.value)
            && Hp(g.scores, isPlayer) <= Hp(g1.scores, isPlayer) <= INITIAL_HP
            && Hp(g1.scores, !isPlayer) == Hp(g.scores, !isPlayer))
      && (item.itemType == ScoreModifier ==>
            Score(Side(g1, isPlayer)) == Score(me) - item.value
            && (isPlayer && g.status == BustRecovery ==>
                  (g1.status == PlayerTurn <==> Score(g1.player) <= g1.player.limit)
                  && (g1.status != PlayerTurn ==> g1.status == BustRecovery)))
      && (item.itemType == ScoreBoost ==> Score(Side(g1, isPlayer)) == Score(me) + item.value)
      && (item.itemType == Poison ==>
            Side(g1, !isPlayer).poison == opp.poison + item.value && Side(g1, isPlayer) == me)
      && (item.itemType == Antidote ==>
            Side(g1, isPlayer).poison == 0 && Side(g1, !isPlayer) == opp)
      && (item.itemType == Sabotage ==>
            Side(g1, !isPlayer).hand == DropLast(opp.hand) && Side(g1, isPlayer) == me)
      && (item.itemType == HandSwap ==>
            g1.player.hand == g.dealer.hand && g1.dealer.hand == g.player.hand
            && (isPlayer ==> !g1.dealer.stood)
            && (!isPlayer && g.player.stood ==>
                  !g1.player.stood && (g.status == DealerTurn ==> g1.status == PlayerTurn)))
      && (item.itemType == ScoreLimitChange && !isPlayer ==> g1.player.limit == 20)
  {
  }

  /** Poison stacks only grow, and only through a Poison: an Antidote clears
      its user's stacks, and every other effect leaves both sides' stacks as
      they were. */
  lemma EffectPoisonStacks(g: Game, isPlayer: bool, item: InventoryItem, r: ItemRolls)
    requires Valid(g) && ItemTurn(g, isPlayer) && Items.ItemOk(item) && ItemRollsOk(r)
    ensures var g1 := ItemEffect(g, isPlayer, item, r);
      && (item.itemType != Poison && item.itemType != Antidote ==>
            g1.player.poison == g.player.poison && g1.dealer.poison == g.dealer.poison)
      && (item.itemType != Antidote ==>
            g1.player.poison >= g.player.poison && g1.dealer.poison >= g.dealer.poison)
  {
  }

  /** Removing a slot before the appended item keeps the appended item last. */
  lemma AppendThenRemove(s: seq<InventoryItem>, x: InventoryItem, index: nat)
    requires index < |s|
    ensures RemoveAt(s + [x], index) == RemoveAt(s, index) + [x]
  {
    assert (s + [x])[..index] == s[..index];
    assert (s + [x])[index + 1..] == s[index + 1..] + [x];
  }

  /** Exactly one item is consumed per use: the used item leaves the user's
      inventory and the other slots keep their order; a Thief facing a
      non-empty inventory also moves the target item from the opponent to the
      end of the user's inventory. Across both inventories one item fewer.
      A use blocked by BustRecovery changes nothing. */
  lemma UseItemInventories(g: Game, isPlayer: bool, index: nat, r: ItemRolls)
    requires Valid(g) && ItemTurn(g, isPlayer) && ItemRollsOk(r)
    requires index < |Side(g, isPlayer).inventory|
    ensures var g1 := UseItemStep(g, isPlayer, index, r);
      var me := Side(g, isPlayer).inventory;
      var opp := Side(g, !isPlayer).inventory;
      var item := me[index];
      && (Blocked(g.status, item.itemType) ==> g1 == g)
      && (!Blocked(g.status, item.itemType) ==>
            |g1.player.inventory| + |g1.dealer.inventory| == |g.player.inventory| + |g.dealer.inventory| - 1
            && (item.itemType != Thief || |opp| == 0 ==>
                  Side(g1, isPlayer).inventory == RemoveAt(me, index)
                  && Side(g1, !isPlayer).inventory == opp)
            && (item.itemType == Thief && |opp| > 0 ==>
                  var k := StealTarget(opp, isPlayer, r.stealPick);
                  Side(g1, isPlayer).inventory == RemoveAt(me, index) + [opp[k]]
                  && Side(g1, !isPlayer).inventory == RemoveAt(opp, k)))
    ensures Valid(UseItemStep(g, isPlayer, index, r))
  {
    var me := Side(g, isPlayer).inventory;
    var item := me[index];
    if !Blocked(g.status, item.itemType) {
      if item.itemType != Thief {
        PlainUse(g, isPlayer, index, r);
      } else {
        ThiefUse(g, isPlayer, index, r);
      }
    }
  }

  /** A use of anything but a Thief removes the item and keeps the rest. */
  lemma PlainUse(g: Game, isPlayer: bool, index: nat, r: ItemRolls)
    requires Valid(g) && ItemTurn(g, isPlayer) && ItemRollsOk(r)
    requires index < |Side(g, isPlayer).inventory|
    requires !Blocked(g.status, Side(g, isPlayer).inventory[index].itemType)
    requires Side(g, isPlayer).inventory[index].itemType != Thief
    ensures var g1 := UseItemStep(g, isPlayer, index, r);
      && Side(g1, isPlayer).inventory == RemoveAt(Side(g, isPlayer).inventory, index)
      && Side(g1, !isPlayer).inventory == Side(g, !isPlayer).inventory
      && Valid(g1)
  {
    var me := Side(g, isPlayer).inventory;
    var item := me[index];
    RemoveByIdAt(me, index);
    RemoveAtOk(me, index, g.nextId);
    EffectKeepsValid(g, isPlayer, item, r);
  }

  /** A Thief's use: against an empty inventory only the Thief goes; else
      the target moves to the end of the user's inventory as well. */
  lemma ThiefUse(g: Game, isPlayer: bool, index: nat, r: ItemRolls)
    requires Valid(g) && ItemTurn(g, isPlayer) && ItemRollsOk(r)
    requires index < |Side(g, isPlayer).inventory|
    requires Side(g, isPlayer).inventory[index].itemType == Thief
    ensures var g1 := UseItemStep(g, isPlayer, index, r);
      var me := Side(g, isPlayer).inventory;
      var opp := Side(g, !isPlayer).inventory;
      && (|opp| == 0 ==>
            Side(g1, isPlayer).inventory == RemoveAt(me, index) && Side(g1, !isPlayer).inventory == opp)
      && (|opp| > 0 ==>
            var k := StealTarget(opp, isPlayer, r.stealPick);
            Side(g1, isPlayer).inventory == RemoveAt(me, index) + [opp[k]]
            && Side(g1, !isPlayer).inventory == RemoveAt(opp, k))
      && Valid(g1)
  {
    var me := Side(g, isPlayer).inventory;
    var opp := Side(g, !isPlayer).inventory;
    var item := me[index];
    var n := g.nextId;
    RemoveByIdAt(me, index);
    RemoveAtOk(me, index, n);
    if |opp| > 0 {
      var k := StealTarget(opp, isPlayer, r.stealPick);
      var stolen := opp[k];
      var ge := ItemEffect(g, isPlayer, item, r);
      assert Side(ge, isPlayer).inventory == me + [stolen];
      assert Side(ge, !isPlayer).inventory == RemoveAt(opp, k);
      assert stolen.id in Ids(opp);
      RemoveAtOk(opp, k, n);
      AppendOk(me, stolen, n);
      assert (me + [stolen])[index] == item;
      RemoveByIdAt(me + [stolen], index);
      RemoveAtOk(me + [stolen], index, n);
      AppendThenRemove(me, stolen, index);
      StolenValid(g, isPlayer, index, k);
    }
  }

  /** The invariant after a Thief took slot k of the opponent's inventory. */
  lemma StolenValid(g: Game, isPlayer: bool, index: nat, k: nat)
    requires Valid(g) && ItemTurn(g, isPlayer)
    requires index < |Side(g, isPlayer).inventory| && k < |Side(g, !isPlayer).inventory|
    ensures var me := Side(g, isPlayer).inventory;
      var opp := Side(g, !isPlayer).inventory;
      var g1 := WithSide(WithSide(g, !isPlayer, Side(g, !isPlayer).(inventory := RemoveAt(opp, k))),
                         isPlayer, Side(g, isPlayer).(inventory := RemoveAt(me, index) + [opp[k]]));
      Valid(g1)
  {
    var me := Side(g, isPlayer).inventory;
    var opp := Side(g, !isPlayer).inventory;
    var n := g.nextId;
    var stolen := opp[k];
    assert stolen.id in Ids(opp);
    RemoveAtOk(opp, k, n);
    RemoveAtOk(me, index, n);
    AppendOk(RemoveAt(me, index), stolen, n);
  }

  /** The Thief's target: the player's is the random slot; the dealer takes
      the first value-50 Heal if there is one, else the first Heal, else the
      random slot. */
  lemma StealTargetRules(inv: seq<InventoryItem>, isPlayer: bool, pick: nat)
    requires |inv| > 0
    ensures var k := StealTarget(inv, isPlayer, pick);
      && (isPlayer ==> k == pick % |inv|)
      && (!isPlayer && Holds(inv, IsSuperHeal()) ==>
            inv[k].itemType == Heal && inv[k].value == 50
            && forall i | 0 <= i < k :: !(inv[i].itemType == Heal && inv[i].value == 50))
      && (!isPlayer && !Holds(inv, IsSuperHeal()) && Holds(inv, OfType(Heal)) ==>
            inv[k].itemType == Heal && forall i | 0 <= i < k :: inv[i].itemType != Heal)
      && (!isPlayer && !Holds(inv, OfType(Heal)) ==> k == pick % |inv|)
  {
  }
}

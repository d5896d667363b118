/** The item catalog and the weighted loot draw. */
module Items {
  import opened Types

  /** A catalog entry, without its localized name, description and icon. */
  datatype ItemTemplate = ItemTemplate(itemType: ItemType, value: int, weight: int)

  const LOCALIZED_ITEMS: seq<ItemTemplate> := [
    ItemTemplate(Heal, 5, 20),
    ItemTemplate(Heal, 10, 5),
    ItemTemplate(Heal, 50, 1),
    ItemTemplate(ScoreModifier, 5, 15),
    ItemTemplate(ScoreBoost, 5, 15),
    ItemTemplate(Poison, 2, 12),
    ItemTemplate(Antidote, 0, 12),
    ItemTemplate(ChoiceCard, 3, 10),
    ItemTemplate(Sabotage, 0, 10),
    ItemTemplate(HandSwap, 0, 4),
    ItemTemplate(SeeNext3, 3, 8),
    ItemTemplate(Spy, 3, 7),
    ItemTemplate(ScoreLimitChange, 0, 6),
    ItemTemplate(Thief, 0, 8)
  ]

  /** The values the catalog gives each item type. */
  predicate ValidKind(t: ItemType, v: int)
  {
    match t
    case Heal => v == 5 || v == 10 || v == 50
    case ScoreModifier => v == 5
    case ScoreBoost => v == 5
    case Poison => v == 2
    case ChoiceCard => v == 3
    case SeeNext3 => v == 3
    case Spy => v == 3
    case _ => v == 0
  }

  /** An item whose type and value come from the catalog, drawn with a
      positive weight. */
  predicate ItemOk(it: InventoryItem)
  {
    ValidKind(it.itemType, it.value) && it.weight > 0
  }

  predicate PositiveWeights(items: seq<ItemTemplate>)
  {
    forall i | 0 <= i < |items| :: items[i].weight > 0
  }

  /** The catalog: fourteen templates with positive weights whose values are
      the ones their type takes; the three Heal tiers 5/10/50 with weights
      20/5/1 come first, and Antidote is template 6 with weight 12. */
  lemma CatalogFacts()
    ensures |LOCALIZED_ITEMS| == 14
    ensures PositiveWeights(LOCALIZED_ITEMS)
    ensures forall i | 0 <= i < 14 :: ValidKind(LOCALIZED_ITEMS[i].itemType, LOCALIZED_ITEMS[i].value)
    ensures LOCALIZED_ITEMS[..3] == [ItemTemplate(Heal, 5, 20), ItemTemplate(Heal, 10, 5), ItemTemplate(Heal, 50, 1)]
    ensures forall i | 3 <= i < 14 :: LOCALIZED_ITEMS[i].itemType != Heal
    ensures LOCALIZED_ITEMS[6] == ItemTemplate(Antidote, 0, 12)
    ensures forall i | 0 <= i < 14 && i != 6 :: LOCALIZED_ITEMS[i].itemType != Antidote
  {
  }

  /** Every item type has a template. */
  lemma CatalogCoversTypes(t: ItemType)
    ensures exists i :: 0 <= i < |LOCALIZED_ITEMS| && LOCALIZED_ITEMS[i].itemType == t
  {
    var i := match t
      case Heal => 0 case ScoreModifier => 3 case ScoreBoost => 4 case Poison => 5
      case Antidote => 6 case ChoiceCard => 7 case Sabotage => 8 case HandSwap => 9
      case SeeNext3 => 10 case Spy => 11 case ScoreLimitChange => 12 case Thief => 13;
    assert LOCALIZED_ITEMS[i].itemType == t;
  }

  /** Antidote's weight is raised by half, rounded down, while the drawer is
      poisoned; every other weight is the catalog's. */
  function AdjustedWeight(t: ItemTemplate, isPoisoned: bool): int
  {
    if t.itemType == Antidote && isPoisoned then (t.weight * 3) / 2 else t.weight
  }

  /** The templates with the weights used for one draw. */
  function ActiveItems(isPoisoned: bool): (items: seq<ItemTemplate>)
    ensures |items| == |LOCALIZED_ITEMS|
    ensures forall i | 0 <= i < |items| ::
      items[i].itemType == LOCALIZED_ITEMS[i].itemType && items[i].value == LOCALIZED_ITEMS[i].value
    ensures forall i | 0 <= i < |items| ::
      items[i].weight == if items[i].itemType == Antidote && isPoisoned then 18 else LOCALIZED_ITEMS[i].weight
  {
    CatalogFacts();
    seq(|LOCALIZED_ITEMS|, i requires 0 <= i < |LOCALIZED_ITEMS| =>
      LOCALIZED_ITEMS[i].(weight := AdjustedWeight(LOCALIZED_ITEMS[i], isPoisoned)))
  }

  /** Sum of the weights of the first n templates. */
  function Cum(items: seq<ItemTemplate>, n: nat): (c: int)
    requires n <= |items|
    ensures PositiveWeights(items) ==> c >= n
  {
    if n == 0 then 0 else Cum(items, n - 1) + items[n - 1].weight
  }

  function TotalWeight(items: seq<ItemTemplate>): int
  {
    Cum(items, |items|)
  }

  lemma {:induction false} CumMonotone(items: seq<ItemTemplate>, a: nat, b: nat)
    requires PositiveWeights(items) && a <= b <= |items|
    ensures Cum(items, a) + (b - a) <= Cum(items, b)
    decreases b - a
  {
    if a < b {
      CumMonotone(items, a, b - 1);
    }
  }

  /** The template the loop selects, searching from position i on: the first
      whose cumulative weight exceeds r. */
  function PickFrom(items: seq<ItemTemplate>, r: int, i: nat): (k: nat)
    requires PositiveWeights(items) && i < |items|
    requires Cum(items, i) <= r < TotalWeight(items)
    ensures i <= k < |items| && Cum(items, k) <= r < Cum(items, k + 1)
    decreases |items| - i
  {
    if r < Cum(items, i + 1) then i else PickFrom(items, r, i + 1)
  }

  function Pick(items: seq<ItemTemplate>, r: int): (k: nat)
    requires PositiveWeights(items) && 0 <= r < TotalWeight(items)
    ensures k < |items|
  {
    PickFrom(items, r, 0)
  }

  /** Template i is selected exactly when r lies in [Cum(i), Cum(i + 1)). */
  lemma PickInterval(items: seq<ItemTemplate>, r: int, i: nat)
    requires PositiveWeights(items) && 0 <= r < TotalWeight(items) && i < |items|
    ensures Pick(items, r) == i <==> Cum(items, i) <= r < Cum(items, i + 1)
  {
    var k := Pick(items, r);
    if k < i {
      CumMonotone(items, k + 1, i);
    } else if i < k {
      CumMonotone(items, i + 1, k);
    }
  }

  /** How many draws r in [lo, hi) select template i. */
  function CountPicks(items: seq<ItemTemplate>, i: nat, lo: int, hi: int): nat
    requires PositiveWeights(items) && 0 <= lo <= hi <= TotalWeight(items)
    decreases hi - lo
  {
    if lo == hi then 0
    else CountPicks(items, i, lo, hi - 1) + (if Pick(items, hi - 1) == i then 1 else 0)
  }

  function Max(a: int, b: int): int { if a < b then b else a }
  function Min(a: int, b: int): int { if a < b then a else b }

  /** Among the draws in [lo, hi), exactly those in [Cum(i), Cum(i + 1)) select
      template i. */
  lemma {:induction false} CountPicksOverlap(items: seq<ItemTemplate>, i: nat, lo: int, hi: int)
    requires PositiveWeights(items) && i < |items| && 0 <= lo <= hi <= TotalWeight(items)
    ensures CountPicks(items, i, lo, hi) == Max(0, Min(hi, Cum(items, i + 1)) - Max(lo, Cum(items, i)))
    decreases hi - lo
  {
    CumMonotone(items, i, i + 1);
    if lo < hi {
      CountPicksOverlap(items, i, lo, hi - 1);
      PickInterval(items, hi - 1, i);
    }
  }

  /** Template i is selected by exactly `weight` of the draws in
      [0, total weight), so it is drawn with probability weight / total. */
  lemma PickRegion(items: seq<ItemTemplate>, i: nat)
    requires PositiveWeights(items) && i < |items|
    ensures CountPicks(items, i, 0, TotalWeight(items)) == items[i].weight
  {
    CumMonotone(items, 0, i);
    CumMonotone(items, i + 1, |items|);
    CountPicksOverlap(items, i, 0, TotalWeight(items));
  }

  /** Unpoisoned, the weights are the catalog's. */
  lemma ActiveUnpoisoned()
    ensures ActiveItems(false) == LOCALIZED_ITEMS
  {
  }

  /** Poisoned, only Antidote's weight changes, from 12 to 18. */
  lemma ActivePoisoned()
    ensures ActiveItems(true) == LOCALIZED_ITEMS[6 := ItemTemplate(Antidote, 0, 18)]
  {
    CatalogFacts();
  }

  /** The running totals of the catalog's weights. */
  lemma CatalogCum()
    ensures Cum(LOCALIZED_ITEMS, 6) == 68 && Cum(LOCALIZED_ITEMS, 7) == 80
    ensures Cum(LOCALIZED_ITEMS, 14) == 133
  {
    var a := LOCALIZED_ITEMS;
    assert Cum(a, 3) == 26;
    assert Cum(a, 6) == 68;
    assert Cum(a, 9) == 100;
    assert Cum(a, 12) == 119;
  }

  /** Changing template k's weight shifts every running total past k by the
      difference. */
  lemma {:induction false} CumUpdate(items: seq<ItemTemplate>, k: nat, t: ItemTemplate, n: nat)
    requires k < |items| && n <= |items|
    ensures Cum(items[k := t], n) == Cum(items, n) + (if n > k then t.weight - items[k].weight else 0)
  {
    if n > 0 {
      CumUpdate(items, k, t, n - 1);
    }
  }

  /** Unpoisoned, the weights total 133 and Antidote (template 6) is selected
      by 12 of the draws. */
  lemma AntidoteOddsUnpoisoned()
    ensures TotalWeight(ActiveItems(false)) == 133
    ensures CountPicks(ActiveItems(false), 6, 0, TotalWeight(ActiveItems(false))) == 12
  {
    ActiveUnpoisoned();
    CatalogFacts();
    CatalogCum();
    PickRegion(LOCALIZED_ITEMS, 6);
  }

  /** Poisoned, the weights total 139 and Antidote is selected by 18 of the
      draws. */
  lemma AntidoteOddsPoisoned()
    ensures TotalWeight(ActiveItems(true)) == 139
    ensures CountPicks(ActiveItems(true), 6, 0, TotalWeight(ActiveItems(true))) == 18
  {
    var b := ActiveItems(true);
    ActivePoisoned();
    CatalogFacts();
    CatalogCum();
    CumUpdate(LOCALIZED_ITEMS, 6, ItemTemplate(Antidote, 0, 18), 14);
    PickRegion(b, 6);
  }

  function MakeOption(t: ItemTemplate, id: nat): InventoryItem
  {
    InventoryItem(id, t.itemType, t.value, t.weight)
  }

  /** The total weight of one draw: 133, or 139 with Antidote at 18. */
  function DrawTotal(isPoisoned: bool): int
  {
    if isPoisoned then 139 else 133
  }

  lemma DrawTotalIsWeight(isPoisoned: bool)
    ensures TotalWeight(ActiveItems(isPoisoned)) == DrawTotal(isPoisoned)
  {
    if isPoisoned {
      AntidoteOddsPoisoned();
    } else {
      AntidoteOddsUnpoisoned();
    }
  }

  /** Each random number of a draw lies in [0, total weight). */
  predicate ValidDraws(rs: seq<int>, isPoisoned: bool)
  {
    forall i | 0 <= i < |rs| :: 0 <= rs[i] < DrawTotal(isPoisoned)
  }

  /** The option a draw r produces. */
  function DrawnOption(isPoisoned: bool, r: int, id: nat): (it: InventoryItem)
    requires 0 <= r < DrawTotal(isPoisoned)
    ensures ItemOk(it) && it.id == id
  {
    CatalogFacts();
    DrawTotalIsWeight(isPoisoned);
    var items := ActiveItems(isPoisoned);
    MakeOption(items[Pick(items, r)], id)
  }

  /** The options drawn with the random numbers rs, in order. */
  function LootOptions(isPoisoned: bool, rs: seq<int>, firstId: nat): (opts: seq<InventoryItem>)
    requires ValidDraws(rs, isPoisoned)
    ensures |opts| == |rs|
    ensures forall i | 0 <= i < |opts| :: ItemOk(opts[i]) && opts[i].id == firstId + i
  {
    seq(|rs|, i requires 0 <= i < |rs| => DrawnOption(isPoisoned, rs[i], firstId + i))
  }

  /** Option i is a copy of the template whose cumulative-weight interval
      holds rs[i], carrying the weight that template had in the draw. */
  lemma LootOptionsDrawn(isPoisoned: bool, rs: seq<int>, firstId: nat, i: nat)
    requires ValidDraws(rs, isPoisoned) && i < |rs|
    ensures var items := ActiveItems(isPoisoned);
      exists k :: 0 <= k < |items| && Cum(items, k) <= rs[i] < Cum(items, k + 1)
        && LootOptions(isPoisoned, rs, firstId)[i] == InventoryItem(firstId + i, items[k].itemType, items[k].value, items[k].weight)
  {
    CatalogFacts();
    DrawTotalIsWeight(isPoisoned);
    var items := ActiveItems(isPoisoned);
    var k := Pick(items, rs[i]);
    assert LootOptions(isPoisoned, rs, firstId)[i] == MakeOption(items[k], firstId + i);
  }

  /** Draws are independent: the same random number twice gives the same
      template twice, here two 5-point Heals. */
  lemma LootDuplicatesExample()
    ensures ValidDraws([0, 0, 0], false)
    ensures var opts := LootOptions(false, [0, 0, 0], 0);
      opts[0].itemType == Heal && opts[1].itemType == Heal && opts[0].value == 5 && opts[1].value == 5
  {
    LootOptionsDrawn(false, [0, 0, 0], 0, 0);
    LootOptionsDrawn(false, [0, 0, 0], 0, 1);
    ActiveUnpoisoned();
    CatalogFacts();
    var items := ActiveItems(false);
    forall k | 0 < k < |items| ensures Cum(items, k) > 0 {
      CumMonotone(items, 1, k);
    }
  }

  /** generateLootOptions: `count` independent draws; each decrements its
      random number by the weights in catalog order until it falls below one.
      Option i gets id firstId + i. */
  method GenerateLootOptions(count: nat, isPoisoned: bool, rs: seq<int>, firstId: nat)
    returns (options: seq<InventoryItem>)
    requires |rs| == count && ValidDraws(rs, isPoisoned)
    ensures options == LootOptions(isPoisoned, rs, firstId)
  {
    CatalogFacts();
    DrawTotalIsWeight(isPoisoned);
    options := [];
    var activeItems := ActiveItems(isPoisoned);
    for i := 0 to count
      invariant |options| == i
      invariant forall k | 0 <= k < i :: options[k] == DrawnOption(isPoisoned, rs[k], firstId + k)
    {
      var random := rs[i];
      var selected := -1;
      var j := 0;
      while j < |activeItems|
        invariant 0 <= j <= |activeItems|
        invariant selected == -1
        invariant random == rs[i] - Cum(activeItems, j) && Cum(activeItems, j) <= rs[i]
      {
        if random < activeItems[j].weight {
          selected := j;
          break;
        }
        random := random - activeItems[j].weight;
        j := j + 1;
      }
      if selected != -1 {
        PickInterval(activeItems, rs[i], selected);
        options := options + [MakeOption(activeItems[selected], firstId + i)];
      }
    }
  }
}

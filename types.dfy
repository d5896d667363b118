/** The value types shared by the rules engine: cards, statuses, winners,
    item kinds and inventory items. */
module Types {

  datatype Suit = Hearts | Diamonds | Clubs | Spades

  /** A playing card. `rank` is the label ("2".."10", "J", "Q", "K", "A");
      `value` is what the card adds to a hand; a hidden card scores nothing. */
  datatype Card = Card(suit: Suit, rank: string, value: int, isHidden: bool)

  datatype GameStatus =
    | Idle
    | PlayerTurn
    | DealerTurn
    | BustRecovery
    | RoundOver
    | LootSelection
    | ChoosingRandomCard
    | GameOver
    | ViewingDeck
    | ConfiguringLimit
    | Spying

  datatype Winner = None | Player | Dealer | Push

  datatype ScoreState = ScoreState(playerHp: int, dealerHp: int, roundsPlayed: int)

  datatype ItemType =
    | Heal
    | ScoreModifier
    | ScoreBoost
    | Sabotage
    | Poison
    | Antidote
    | ChoiceCard
    | HandSwap
    | SeeNext3
    | ScoreLimitChange
    | Spy
    | Thief

  /** An item held in an inventory or offered as loot. The source's string id
      is modelled as a number handed out by the game; `weight` is the weight
      the item was drawn with. */
  datatype InventoryItem = InventoryItem(id: nat, itemType: ItemType, value: int, weight: int)

  /** Option for the handlers' nullable inputs. */
  datatype Option<T> = Nothing | Some(value: T)
}

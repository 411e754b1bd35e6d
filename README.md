# Inventory, shop and battle core of a role-play idle game

This project models three parts of the game's logic in Dafny.

- **The inventory ledger.** A list of `{name, quantity}` entries with unique names. Raw item
  lists are normalised: falsy entries are dropped, a bare string counts as one item, and a
  missing quantity defaults to 1. Items are added by merging into the entry with the same name
  or appending a new one. They are removed by lowering the quantity, floored at 0, and deleting
  the entry once it reaches 0. A requirement check says whether every required item is held in
  the required amount.
- **The shop.** A fixed catalogue of four offerings priced in gold and shadow essence, an
  affordability check against a wallet, purchase (look up, check, debit, credit the reward
  items) and crafting (check the requirements, consume them, add the outputs).
- **The battle.** Enemies built from three fixed templates, damage reduced by defense, and the
  turn loop. In each round the player strikes first. If the enemy is still standing, one second
  elapses, the player's stamina regenerates up to a cap of 100, and the enemy strikes back. The
  loop ends when either side's health is at or below 0.

Layout:

- `wrappers.dfy`: `Option` and `Max`.
- `inventory.dfy`:
  - the item datatypes;
  - normalisation;
  - the ledger operations, first as functions over `seq<Item>` and then as the `Ledger` class,
    whose loops update its `entries` field in place.
- `ledger_round_trip.dfy`: proves that adding items and then removing the same items gives back
  the original ledger.
- `players.dfy`: the player record that the shop and the battle update.
- `shop.dfy`: the catalogue, purchase and crafting.
- `battle.dfy`: enemies, random enemy choice and the battle loop. The battle loop's final state is
  given in closed form.

Two consequences of the code as written:

- **Defense applies twice.** The battle loop subtracts the enemy's defense from the player's
  damage (`battlesystem.js:49`). `Enemy.takeDamage` then subtracts it again (`battlesystem.js:19`).
  So a player with damage 3 against defense 1 needs 20 strikes to fell a 20-health enemy. With a
  single defense reduction, 10 strikes would do. `Battle.TwentyHealthScenario` states both counts.
- **A battle can stall.** The loop's only exit is one side's health reaching 0 or below. When
  neither side can deal damage, that never happens and the loop does not end.
  `Battle.SelfDoubtStalemate` gives such players against the "Self-Doubt" template. The model of
  the loop therefore requires that at least one side can fall.

## Model

| member | source | states |
|---|---|---|
| Inventory.NormalizeOne | inventorySystem.js:4-11 | a bare string becomes quantity 1; a record keeps its name and its quantity, defaulting to 1 when absent |
| Inventory.Normalize | inventorySystem.js:1-13 | never longer than the input; with no falsy items it is exactly the item-wise normalisation, in order; with only falsy items it is empty |
| Inventory.NormalizeMembers | inventorySystem.js:2-12 | every truthy raw item's normalisation occurs in the result, and every result entry is the normalisation of some truthy raw item |
| Inventory.NormalizeAppend | inventorySystem.js:2-12 | normalising a concatenation is the concatenation of the normalisations |
| Inventory.Find | inventorySystem.js:18 | returns the first index holding the name, and none exactly when no entry has that name |
| Inventory.AddOne | inventorySystem.js:18-23 | merging one item grows the ledger by at most one entry; its full effect is stated by Inventory.AddOneEffect |
| Inventory.AddOneEffect | inventorySystem.js:17-24 | adding one item raises that name's count by its quantity, appends the name only when absent, leaves other entries and counts unchanged, and keeps names unique |
| Inventory.RemoveOne | inventorySystem.js:31-38 | removing one item shrinks the ledger by at most one entry; its full effect is stated by Inventory.RemoveOneEffect |
| Inventory.RemoveOneEffect | inventorySystem.js:30-40 | an absent name changes nothing; otherwise that name's count becomes max(count - quantity, 0), and the entry is gone exactly when that is 0; other names' counts are unchanged; the order of names is kept; names stay unique |
| Inventory.AddAll | inventorySystem.js:15-26 | the fold of single additions over a list keeps entry names unique |
| Inventory.AddAllEffect | inventorySystem.js:15-26 | after adding a list, each name's count is the old count plus the list's total for that name |
| Inventory.RemoveAll | inventorySystem.js:28-42 | the fold of single removals over a list keeps entry names unique |
| Inventory.RemoveCovered | inventorySystem.js:28-42 | removing requirements the ledger covers, with distinct names, lowers each count by exactly the required total |
| Inventory.Covers | inventorySystem.js:46-49 | true exactly when every requirement's name is present with at least the required quantity |
| Inventory.HasRequiredItems | inventorySystem.js:44-50 | true exactly when every truthy raw requirement is present with at least its normalised quantity; true for no requirements |
| Inventory.Ledger.constructor | inventorySystem.js:15 | the ledger starts with the given entries |
| Inventory.Ledger.AddItems | inventorySystem.js:15-26 | the entries become the fold of single additions over the normalised items; counts rise by the per-name totals; uniqueness is kept |
| Inventory.Ledger.RemoveItems | inventorySystem.js:28-42 | the entries become the fold of single removals over the normalised items; uniqueness is kept |
| LedgerRoundTrip.AddAllView | inventorySystem.js:15-26 | adding a list bumps existing entries by their totals in place and appends the new names in first-seen order with their totals |
| LedgerRoundTrip.RoundTrip | inventorySystem.js:15-42 | for a ledger with unique names and positive quantities, adding a list of positive items and then removing the same list restores the ledger exactly, even with repeated names in the list |
| Shop.CatalogWellFormed | shopSystem.js:3-32 | catalogue ids are distinct, costs are non-negative, and each reward normalises to one unit of the offering's item |
| Shop.Balance | shopSystem.js:35 | the wallet's balance for a currency, and 0 for a currency the wallet lacks |
| Shop.CanAfford | shopSystem.js:34-36 | true exactly when the wallet's balance (0 for a missing currency) covers every cost entry |
| Shop.Wallet | shopSystem.js:44 | the player's wallet has exactly the keys gold and essence, holding the player's money and shadow essence |
| Shop.AffordCost | shopSystem.js:34-36 | for a gold/essence cost against the player's wallet, affordable exactly when both balances cover the cost |
| Shop.FindOffering | shopSystem.js:39 | finds an offering with the id, and none exactly when no offering has it |
| Shop.FocusCharmNeedsEssence | shopSystem.js:11-17 | the focus charm is never affordable with less than 2 essence |
| Shop.PurchaseItem | shopSystem.js:38-56 | an unknown id leaves everything unchanged with "Item not found."; an unaffordable offering leaves everything unchanged with "Not enough currency."; otherwise gold and essence drop by the cost, the reward items are added, the message is the offering name plus " purchased!", and both balances stay non-negative |
| Shop.CraftMessage | shopSystem.js:67 | the recipe's own message when it is present and non-empty, otherwise "Crafted successfully."; never empty |
| Shop.CraftWithItems | shopSystem.js:59-68 | succeeds exactly when the requirements are held; on failure the inventory is unchanged and the message is "Missing required materials."; on success the requirements are removed, then the outputs are added |
| Shop.CraftCounts | shopSystem.js:59-68 | after crafting with distinct requirement names, each count equals the old count minus the required total plus the output total |
| Battle.DamageAfterDefense | battlesystem.js:19 | never negative, at least damage minus defense, and either 0 or exactly damage minus defense |
| Battle.Enemy.constructor | battlesystem.js:2-9 | every field takes its argument |
| Battle.Enemy.Attack | battlesystem.js:11-15 | returns the attack power |
| Battle.Enemy.TakeDamage | battlesystem.js:17-26 | health drops by the damage after defense; the result is true exactly when health is at or below 0 |
| Battle.TemplateIndex | battlesystem.js:38 | the floor of three times a draw in [0, 1) is a valid template index |
| Battle.GenerateRandomEnemy | battlesystem.js:29-40 | a new enemy carrying every stat of the drawn template |
| Battle.PlayerHit | battlesystem.js:49-50 | the player's strike is never negative and, against a non-negative defense, never exceeds one defense reduction |
| Battle.PlayerHitTwiceDefense | battlesystem.js:49-50 | against a non-negative defense, the player's strike is max(damage - 2 * defense, 0), so it loses twice the enemy's defense and never exceeds one defense reduction |
| Battle.EnemyHit | battlesystem.js:71 | never negative; either 0 or attack minus defense |
| Battle.Regenerate | battlesystem.js:65-68 | stamina plus the rate when that is at most 100, and exactly 100 when it exceeds 100 |
| Battle.RegenerateTimes | battlesystem.js:65-68 | after one or more enemy turns stamina is at most 100; starting at or below 100 with a non-negative rate it never drops; below the cap it is the start plus the turns times the rate; once that reaches 100 it is exactly 100 |
| Battle.StrikesToFall | battlesystem.js:47-81 | the least number of strikes (at least one) after which the health is at or below 0 |
| Battle.StrikesToFallUnique | battlesystem.js:47-81 | any count meeting those two conditions is that number |
| Battle.WonInRound | battlesystem.js:53-58 | the enemy falling in a round both sides entered standing means a player win after that many enemy turns |
| Battle.LostInRound | battlesystem.js:77-81 | the player falling to the enemy's strike means a loss after that many enemy turns |
| Battle.TwentyHealthScenario | battlesystem.js:49-50 | damage 3 against defense 1 fells a 20-health enemy in 20 strikes; one defense reduction would take 10 |
| Battle.SelfDoubtStalemate | battlesystem.js:35 | against "Self-Doubt", damage at most 6 and defense at least 4 leave neither side able to fall |
| Battle.HandleBattle | battlesystem.js:42-89 | the enemy ends at or below 0 exactly when the player wins (the enemy needs no more strikes than the player can take), else the player ends at or below 0; the elapsed time is the number of enemy turns; both final healths and the final stamina are given in closed form; stamina ends at most 100 after any enemy turn |

## Left out

- Logging with `console.log` and the one-second `setTimeout` pause in `handleBattle` are not modelled. The elapsed time is returned instead of logged.
- `Math.random` in `generateRandomEnemy` becomes a draw parameter in [0, 1).
- `generateRandomEnemy` builds all three enemies and returns one; the model builds only the returned one.
- Ledger entries are values in a sequence, so aliasing of the entry objects that JavaScript's `find` hands out is not modelled.
- The `?? 1` fallback on an existing entry's quantity is not modelled. Every entry the ledger creates carries a quantity.
- Item names are strings, so `typeof`-dispatch on other kinds of values is reduced to falsy, bare-string and record items.
- `Inventory.HasRequiredItems` checks each requirement alone, as the source does. Two requirements with the same name are not summed.
- `Shop.PurchaseItem` debits `cost.gold || 0` and `cost.essence || 0`. Every catalogue cost defines both, so the fallback is not modelled.
- `Shop.PurchaseItem` always credits reward items. Every catalogue offering has `reward.items`.
- `Shop.CraftWithItems` takes the recipe output items as a sequence. A missing `output.items` is the empty sequence.
- Shop.CraftWithItems: the model's `Recipe` always carries both a requirement list and an output list. A recipe without `output` makes the source throw after it has already removed the requirements (shopSystem.js:64-65). A recipe with `requirements: null` makes it throw before any change (shopSystem.js:60). Neither exception is modelled.
- Battle.HandleBattle: requires that at least one side can fall. Without that the source loops forever, and a method proved to terminate cannot model that case.
- JavaScript numbers are modelled as unbounded integers, with no floating-point rounding. The player's `staminaRegenRate` is an integer. An enemy's `staminaRegenRate` is a real, because "Self-Doubt" has 4.5.
- None of the modelled files defines the player record. `Players.Player` is an assumed shape holding exactly the fields that purchase, crafting and the battle loop read or write.

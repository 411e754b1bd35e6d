/**
 * The shop: a fixed catalog of offerings priced in gold and essence, an
 * affordability check over a wallet, purchases that debit the player and credit
 * the inventory, and crafting that consumes required items and adds outputs.
 */
module Shop {
  import opened Wrappers
  import opened Inventory
  import opened Players

  datatype Cost = Cost(gold: int, essence: int)

  datatype Offering = Offering(id: string, name: string, description: string, cost: Cost, rewardItems: seq<RawItem>)

  /** `SHOP_CATALOG`. */
  const Catalog: seq<Offering> := [
    Offering("bandage", "Bandage", "Restores minor wounds after a fight.",
             Cost(35, 0), [Record("Bandage", Some(1))]),
    Offering("focus-charm", "Focus Charm", "Aids concentration; worth crafting later.",
             Cost(60, 2), [Record("Focus Charm", Some(1))]),
    Offering("stamina-tonic", "Stamina Tonic", "Trade essence for condensed energy.",
             Cost(25, 3), [Record("Stamina Tonic", Some(1))]),
    Offering("snack", "Snack", "Cheap bite that restores a little AP and quickens your next task.",
             Cost(12, 0), [Record("Snack", Some(1))])
  ]

  /** The catalog's ids are unique, its costs are non-negative, and each offering rewards
      exactly one unit of the item it is named after. */
  lemma CatalogWellFormed()
    ensures forall i, j :: 0 <= i < j < |Catalog| ==> Catalog[i].id != Catalog[j].id
    ensures forall i :: 0 <= i < |Catalog| ==> Catalog[i].cost.gold >= 0 && Catalog[i].cost.essence >= 0
    ensures forall i :: 0 <= i < |Catalog| ==> Normalize(Catalog[i].rewardItems) == [Item(Catalog[i].name, 1)]
  {
  }

  /** `Object.entries(cost)` for a catalog cost, in declaration order. */
  function CostEntries(c: Cost): seq<(string, int)> {
    [("gold", c.gold), ("essence", c.essence)]
  }

  /** The wallet `purchaseItem` builds from the player. */
  function Wallet(money: int, essence: int): (w: map<string, int>)
    ensures w.Keys == {"gold", "essence"}
    ensures w["gold"] == money && w["essence"] == essence
  {
    map["gold" := money, "essence" := essence]
  }

  /** `wallet[currency] ?? 0`. */
  function Balance(wallet: map<string, int>, currency: string): (b: int)
    ensures currency in wallet ==> b == wallet[currency]
    ensures currency !in wallet ==> b == 0
  {
    if currency in wallet then wallet[currency] else 0
  }

  /** `canAfford`: the wallet covers every currency the cost lists, a missing currency counting as 0. */
  function CanAfford(cost: seq<(string, int)>, wallet: map<string, int>): (r: bool)
    ensures r <==> forall k :: 0 <= k < |cost| ==> Balance(wallet, cost[k].0) >= cost[k].1
  {
    if cost == [] then true
    else Balance(wallet, cost[0].0) >= cost[0].1 && CanAfford(cost[1..], wallet)
  }

  /** For a catalog cost and the player's wallet, affordability is plain comparison of both currencies. */
  lemma AffordCost(c: Cost, money: int, essence: int)
    ensures CanAfford(CostEntries(c), Wallet(money, essence)) <==> money >= c.gold && essence >= c.essence
  {
    assert CostEntries(c)[0] == ("gold", c.gold) && CostEntries(c)[1] == ("essence", c.essence);
  }

  /** `SHOP_CATALOG.find(entry => entry.id === itemId)`. */
  function FindOffering(catalog: seq<Offering>, id: string): (r: Option<Offering>)
    ensures r.None? <==> forall k :: 0 <= k < |catalog| ==> catalog[k].id != id
    ensures r.Some? ==> r.value in catalog && r.value.id == id
  {
    if catalog == [] then None
    else if catalog[0].id == id then Some(catalog[0])
    else FindOffering(catalog[1..], id)
  }

  /** A focus charm cannot be bought without two essence, however much gold the player has. */
  lemma FocusCharmNeedsEssence(money: int, essence: int)
    requires essence < 2
    ensures FindOffering(Catalog, "focus-charm") == Some(Catalog[1])
    ensures !CanAfford(CostEntries(FindOffering(Catalog, "focus-charm").value.cost), Wallet(money, essence))
  {
    assert Catalog[0].id != "focus-charm";
    assert Catalog[1..][0] == Catalog[1];
    AffordCost(Catalog[1].cost, money, essence);
  }

  /** `purchaseItem`: an unknown id or an unaffordable offering is rejected with nothing changed;
      otherwise gold and essence are debited by the cost and the reward items are added. */
  method PurchaseItem(player: Player, itemId: string) returns (success: bool, message: string)
    modifies player`playerMoney, player`shadowEssence, player.inventory
    ensures FindOffering(Catalog, itemId).None? ==>
              !success && message == "Item not found." &&
              unchanged(player) && unchanged(player.inventory)
    ensures FindOffering(Catalog, itemId).Some? ==>
              var o := FindOffering(Catalog, itemId).value;
              if old(player.playerMoney) >= o.cost.gold && old(player.shadowEssence) >= o.cost.essence then
                success && message == o.name + " purchased!" &&
                player.playerMoney == old(player.playerMoney) - o.cost.gold &&
                player.shadowEssence == old(player.shadowEssence) - o.cost.essence &&
                player.inventory.entries == AddAll(old(player.inventory.entries), Normalize(o.rewardItems)) &&
                forall n :: Count(player.inventory.entries, n) ==
                              Count(old(player.inventory.entries), n) + Sum(Normalize(o.rewardItems), n)
              else
                !success && message == "Not enough currency." &&
                unchanged(player) && unchanged(player.inventory)
    ensures success ==> player.playerMoney >= 0 && player.shadowEssence >= 0
    ensures UniqueNames(old(player.inventory.entries)) ==> UniqueNames(player.inventory.entries)
  {
    var found := FindOffering(Catalog, itemId);
    if found.None? {
      return false, "Item not found.";
    }
    var offering := found.value;
    CatalogWellFormed();
    var wallet := Wallet(player.playerMoney, player.shadowEssence);
    AffordCost(offering.cost, player.playerMoney, player.shadowEssence);
    if !CanAfford(CostEntries(offering.cost), wallet) {
      return false, "Not enough currency.";
    }
    player.playerMoney := player.playerMoney - offering.cost.gold;
    player.shadowEssence := player.shadowEssence - offering.cost.essence;
    player.inventory.AddItems(offering.rewardItems);
    return true, offering.name + " purchased!";
  }

  /** A recipe: its required items, its output items (none when the recipe lists no output items)
      and an optional success message. */
  datatype Recipe = Recipe(requirements: seq<RawItem>, outputItems: seq<RawItem>, successMessage: Option<string>)

  /** `recipe.successMessage || 'Crafted successfully.'`: a missing or empty message falls back to the default. */
  function CraftMessage(recipe: Recipe): (m: string)
    ensures m != ""
    ensures recipe.successMessage.Some? && recipe.successMessage.value != "" ==> m == recipe.successMessage.value
    ensures !(recipe.successMessage.Some? && recipe.successMessage.value != "") ==> m == "Crafted successfully."
  {
    if recipe.successMessage.Some? && recipe.successMessage.value != "" then recipe.successMessage.value
    else "Crafted successfully."
  }

  /** `craftWithItems`: missing materials leave the inventory alone; otherwise the requirements
      are removed and then the outputs are added. */
  method CraftWithItems(player: Player, recipe: Recipe) returns (success: bool, message: string)
    modifies player.inventory
    ensures success <==> HasRequiredItems(old(player.inventory.entries), recipe.requirements)
    ensures !success ==> message == "Missing required materials." && unchanged(player.inventory)
    ensures success ==>
              message == CraftMessage(recipe) &&
              player.inventory.entries ==
                AddAll(RemoveAll(old(player.inventory.entries), Normalize(recipe.requirements)), Normalize(recipe.outputItems))
    ensures UniqueNames(old(player.inventory.entries)) ==> UniqueNames(player.inventory.entries)
  {
    if !HasRequiredItems(player.inventory.entries, recipe.requirements) {
      return false, "Missing required materials.";
    }
    player.inventory.RemoveItems(recipe.requirements);
    player.inventory.AddItems(recipe.outputItems);
    return true, CraftMessage(recipe);
  }

  /** A successful craft with distinct requirement names lowers each required item by exactly the
      required amount and raises each output by exactly the output amount. */
  lemma CraftCounts(s: seq<Item>, recipe: Recipe)
    requires UniqueNames(s) && HasRequiredItems(s, recipe.requirements)
    requires UniqueNames(Normalize(recipe.requirements))
    ensures forall n ::
              Count(AddAll(RemoveAll(s, Normalize(recipe.requirements)), Normalize(recipe.outputItems)), n) ==
              Count(s, n) - Sum(Normalize(recipe.requirements), n) + Sum(Normalize(recipe.outputItems), n)
  {
    var reqs := Normalize(recipe.requirements);
    assert Covers(s, reqs);
    RemoveCovered(s, reqs);
    AddAllEffect(RemoveAll(s, reqs), Normalize(recipe.outputItems));
  }
}

/**
 * The player record that the shop and the battle loop update in place. No module of
 * the core defines it; this is an assumed shape holding exactly the fields the
 * purchase, crafting and battle operations read or write.
 */
module Players {
  import opened Inventory

  class Player {
    var playerMoney: int
    var shadowEssence: int
    /** The inventory array; operations update its entries, never replace it. */
    const inventory: Ledger
    const damage: int
    const defense: int
    var health: int
    var stamina: int
    const staminaRegenRate: int

    constructor (playerMoney: int, shadowEssence: int, inventory: Ledger, damage: int, defense: int,
                 health: int, stamina: int, staminaRegenRate: int)
      ensures this.playerMoney == playerMoney && this.shadowEssence == shadowEssence
      ensures this.inventory == inventory
      ensures this.damage == damage && this.defense == defense && this.health == health
      ensures this.stamina == stamina && this.staminaRegenRate == staminaRegenRate
    {
      this.playerMoney := playerMoney;
      this.shadowEssence := shadowEssence;
      this.inventory := inventory;
      this.damage := damage;
      this.defense := defense;
      this.health := health;
      this.stamina := stamina;
      this.staminaRegenRate := staminaRegenRate;
    }
  }
}

/**
 * The battle: enemies with fixed templates, damage reduced by defense, and the
 * turn loop in which the player strikes, then (if the enemy still stands) the
 * player's stamina regenerates and the enemy strikes back, until one side's
 * health reaches 0 or below. The loop applies the enemy's defense twice to the
 * player's attack: once when it computes the attack, once more in `TakeDamage`.
 */
module Battle {
  import opened Players
  import opened Wrappers

  /** The damage that gets through a defense: never negative, and exactly `damage - defense` when that is positive. */
  function DamageAfterDefense(damage: int, defense: int): (r: int)
    ensures r >= 0 && r >= damage - defense
    ensures r == 0 || r == damage - defense
  {
    Max(damage - defense, 0)
  }

  class Enemy {
    const name: string
    var health: int
    const attackPower: int
    const defense: int
    const staminaRegenRate: real
    const mana: int

    constructor (name: string, health: int, attackPower: int, defense: int, staminaRegenRate: real, mana: int)
      ensures this.name == name && this.health == health && this.attackPower == attackPower
      ensures this.defense == defense && this.staminaRegenRate == staminaRegenRate && this.mana == mana
    {
      this.name := name;
      this.health := health;
      this.attackPower := attackPower;
      this.defense := defense;
      this.staminaRegenRate := staminaRegenRate;
      this.mana := mana;
    }

    /** `attack`: the full attack power; nothing changes. */
    method Attack() returns (power: int)
      ensures power == attackPower
    {
      power := attackPower;
    }

    /** `takeDamage`: health drops by the damage that gets through the defense; the result says
        whether the enemy is defeated. */
    method TakeDamage(damage: int) returns (defeated: bool)
      modifies this`health
      ensures health == old(health) - DamageAfterDefense(damage, defense)
      ensures health <= old(health)
      ensures defeated <==> health <= 0
    {
      var actualDamage := Max(damage - defense, 0);
      health := health - actualDamage;
      if health <= 0 {
        return true;
      }
      return false;
    }
  }

  datatype EnemyTemplate = EnemyTemplate(name: string, health: int, attackPower: int, defense: int,
                                         staminaRegenRate: real, mana: int)

  /** The enemies `generateRandomEnemy` chooses from, in order. */
  const Templates: seq<EnemyTemplate> := [
    EnemyTemplate("Anxiety", 5, 2, 1, 2.0, 20),
    EnemyTemplate("Depression", 6, 3, 2, 3.0, 30),
    EnemyTemplate("Self-Doubt", 7, 4, 3, 4.5, 25)
  ]

  /** `Math.floor(draw * enemies.length)` for a draw in [0, 1): an index of the template list. */
  function TemplateIndex(draw: real): (i: int)
    requires 0.0 <= draw < 1.0
    ensures 0 <= i < |Templates|
    ensures i as real <= draw * 3.0 < (i + 1) as real
  {
    (draw * 3.0).Floor
  }

  predicate Built(e: Enemy, t: EnemyTemplate)
    reads e
  {
    e.name == t.name && e.health == t.health && e.attackPower == t.attackPower &&
    e.defense == t.defense && e.staminaRegenRate == t.staminaRegenRate && e.mana == t.mana
  }

  /** `generateRandomEnemy`, with the random draw passed in: a new enemy built from the drawn template. */
  method GenerateRandomEnemy(draw: real) returns (enemy: Enemy)
    requires 0.0 <= draw < 1.0
    ensures fresh(enemy)
    ensures Built(enemy, Templates[TemplateIndex(draw)])
  {
    var t := Templates[TemplateIndex(draw)];
    enemy := new Enemy(t.name, t.health, t.attackPower, t.defense, t.staminaRegenRate, t.mana);
  }

  /** What the enemy loses to one player strike: the loop subtracts the defense, then `TakeDamage` subtracts it again. */
  function PlayerHit(damage: int, enemyDefense: int): (r: int)
    ensures r >= 0
    ensures enemyDefense >= 0 ==> r <= DamageAfterDefense(damage, enemyDefense)
  {
    DamageAfterDefense(Max(0, damage - enemyDefense), enemyDefense)
  }

  /** With a non-negative defense, the player's strike loses twice the defense. */
  lemma PlayerHitTwiceDefense(damage: int, enemyDefense: int)
    requires enemyDefense >= 0
    ensures PlayerHit(damage, enemyDefense) == Max(damage - 2 * enemyDefense, 0)
    ensures PlayerHit(damage, enemyDefense) <= DamageAfterDefense(damage, enemyDefense)
  {
  }

  /** What the player loses to one enemy strike. */
  function EnemyHit(attackPower: int, playerDefense: int): (r: int)
    ensures r >= 0 && r >= attackPower - playerDefense
    ensures r == 0 || r == attackPower - playerDefense
  {
    Max(0, attackPower - playerDefense)
  }

  /** One regeneration step: add the rate, cap at 100. */
  function Regenerate(stamina: int, rate: int): (r: int)
    ensures r <= 100
    ensures r <= stamina + rate
    ensures stamina + rate <= 100 ==> r == stamina + rate
    ensures stamina + rate > 100 ==> r == 100
  {
    if stamina + rate > 100 then 100 else stamina + rate
  }

  /** Stamina after `n` regeneration steps. */
  function RegenerateTimes(stamina: int, rate: int, n: nat): (r: int)
    ensures n > 0 ==> r <= 100
    ensures rate >= 0 && stamina <= 100 ==> stamina <= r <= 100
    ensures rate >= 0 && stamina + n * rate <= 100 ==> r == stamina + n * rate
    ensures rate >= 0 && n > 0 && stamina + n * rate >= 100 ==> r == 100
  {
    if n == 0 then stamina
    else
      assert stamina + n * rate == stamina + (n - 1) * rate + rate;
      Regenerate(RegenerateTimes(stamina, rate, n - 1), rate)
  }

  /** A side with this health that loses `hit` per strike goes down eventually. */
  predicate Falls(health: int, hit: int) {
    hit > 0 || health <= 0
  }

  /** The number of strikes (at least one) after which the health is at or below 0. */
  function StrikesToFall(health: int, hit: int): (n: nat)
    requires hit >= 0 && Falls(health, hit)
    ensures n >= 1 && health - n * hit <= 0
    ensures n == 1 || health - (n - 1) * hit > 0
    decreases if health <= 0 then 0 else health
  {
    if health - hit <= 0 then 1
    else
      var m := StrikesToFall(health - hit, hit);
      assert health - (1 + m) * hit == (health - hit) - m * hit;
      assert health - m * hit == (health - hit) - (m - 1) * hit;
      1 + m
  }

  lemma MulMonotone(a: int, b: int, c: int)
    requires 0 <= a <= b && c >= 0
    ensures a * c <= b * c
  {
  }

  /** The two conditions of `StrikesToFall` single out one count. */
  lemma StrikesToFallUnique(health: int, hit: int, m: int)
    requires hit >= 0 && Falls(health, hit) && m >= 1
    requires health - m * hit <= 0 && (m == 1 || health - (m - 1) * hit > 0)
    ensures StrikesToFall(health, hit) == m
  {
    var n := StrikesToFall(health, hit);
    if n < m {
      MulMonotone(n, m - 1, hit);
    } else if n > m {
      MulMonotone(m, n - 1, hit);
    }
  }

  /** Still standing after `k` strikes means more than `k` strikes are needed. */
  lemma StandingAfter(health: int, hit: int, k: int)
    requires hit >= 0 && Falls(health, hit) && k >= 0 && health - k * hit > 0
    ensures StrikesToFall(health, hit) > k
  {
    var n := StrikesToFall(health, hit);
    if n <= k {
      MulMonotone(n, k, hit);
    }
  }

  /** The player strikes first in every round, so the player wins when the enemy needs no more
      strikes than the player can take. */
  predicate PlayerWins(enemyHealth: int, playerHealth: int, playerHit: int, enemyHit: int)
    requires playerHit >= 0 && enemyHit >= 0
  {
    Falls(enemyHealth, playerHit) &&
    (!Falls(playerHealth, enemyHit) || StrikesToFall(enemyHealth, playerHit) <= StrikesToFall(playerHealth, enemyHit))
  }

  /** The number of enemy turns in a battle: one fewer than the player's strikes on a win,
      as many as the strikes the player can take on a loss. */
  function EnemyTurns(enemyHealth: int, playerHealth: int, playerHit: int, enemyHit: int): (n: nat)
    requires playerHit >= 0 && enemyHit >= 0
    requires Falls(enemyHealth, playerHit) || Falls(playerHealth, enemyHit)
  {
    if PlayerWins(enemyHealth, playerHealth, playerHit, enemyHit) then StrikesToFall(enemyHealth, playerHit) - 1
    else StrikesToFall(playerHealth, enemyHit)
  }

  /** The enemy falls to the player's strike in round `k + 1`, both sides having stood through `k` rounds. */
  lemma WonInRound(e0: int, p0: int, ph: int, eh: int, k: nat)
    requires ph >= 0 && eh >= 0 && e0 - (k + 1) * ph <= 0
    requires k > 0 ==> e0 - k * ph > 0 && p0 - k * eh > 0
    ensures Falls(e0, ph) && PlayerWins(e0, p0, ph, eh) && EnemyTurns(e0, p0, ph, eh) == k
  {
    if ph == 0 {
      assert e0 <= 0;
    }
    StrikesToFallUnique(e0, ph, k + 1);
    if Falls(p0, eh) && k > 0 {
      StandingAfter(p0, eh, k);
    }
  }

  /** The player falls to the enemy's strike in round `k`, the enemy still standing after `k` player strikes. */
  lemma LostInRound(e0: int, p0: int, ph: int, eh: int, k: nat)
    requires ph >= 0 && eh >= 0 && k >= 1 && e0 - k * ph > 0 && p0 - k * eh <= 0
    requires k > 1 ==> p0 - (k - 1) * eh > 0
    ensures Falls(p0, eh) && !PlayerWins(e0, p0, ph, eh) && EnemyTurns(e0, p0, ph, eh) == k
  {
    if eh == 0 {
      assert p0 <= 0;
    }
    StrikesToFallUnique(p0, eh, k);
    if Falls(e0, ph) {
      StandingAfter(e0, ph, k);
    }
  }

  /** A player who hits for 3 against defense 1 and a 20-health enemy: one defense reduction would
      need 10 strikes, the double reduction the loop applies needs 20. */
  lemma TwentyHealthScenario(health: int, damage: int, defense: int)
    requires health == 20 && damage == 3 && defense == 1
    ensures PlayerHit(damage, defense) == 1 && DamageAfterDefense(damage, defense) == 2
    ensures StrikesToFall(health, PlayerHit(damage, defense)) == 20
    ensures StrikesToFall(health, DamageAfterDefense(damage, defense)) == 10
  {
    var single, double := DamageAfterDefense(damage, defense), PlayerHit(damage, defense);
    assert double == 1 && single == 2;
    StrikesToFallUnique(health, double, 20);
    StrikesToFallUnique(health, single, 10);
  }

  /** Against "Self-Doubt", a player with damage at most 6 and defense at least 4 neither deals nor takes
      damage, so neither side can fall; a single defense reduction would still let damage above 3 through. */
  lemma SelfDoubtStalemate(playerHealth: int, damage: int, playerDefense: int)
    requires playerHealth > 0 && damage <= 6 && playerDefense >= 4
    ensures var t := Templates[2];
            !Falls(t.health, PlayerHit(damage, t.defense)) && !Falls(playerHealth, EnemyHit(t.attackPower, playerDefense))
    ensures damage > 3 ==> DamageAfterDefense(damage, Templates[2].defense) > 0
  {
  }

  /** `handleBattle`, without its logging and pacing delay. It returns the elapsed time the source
      logs, one second per enemy turn. The source loops forever when neither side can fall, so the
      model requires that one can. */
  method HandleBattle(player: Player, enemy: Enemy) returns (elapsedTime: nat)
    requires Falls(enemy.health, PlayerHit(player.damage, enemy.defense)) ||
             Falls(player.health, EnemyHit(enemy.attackPower, player.defense))
    modifies enemy`health, player`health, player`stamina
    ensures var ph := PlayerHit(player.damage, enemy.defense);
            var eh := EnemyHit(enemy.attackPower, player.defense);
            var won := PlayerWins(old(enemy.health), old(player.health), ph, eh);
            && (enemy.health <= 0 <==> won)
            && (won || player.health <= 0)
            && elapsedTime == EnemyTurns(old(enemy.health), old(player.health), ph, eh)
            && enemy.health == old(enemy.health) - (if won then elapsedTime + 1 else elapsedTime) * ph
            && player.health == old(player.health) - elapsedTime * eh
    ensures player.stamina == RegenerateTimes(old(player.stamina), player.staminaRegenRate, elapsedTime)
    ensures elapsedTime > 0 ==> player.stamina <= 100
  {
    ghost var e0, p0, s0 := enemy.health, player.health, player.stamina;
    ghost var ph := PlayerHit(player.damage, enemy.defense);
    ghost var eh := EnemyHit(enemy.attackPower, player.defense);
    elapsedTime := 0;
    while true
      invariant enemy.health == e0 - elapsedTime * ph
      invariant player.health == p0 - elapsedTime * eh
      invariant player.stamina == RegenerateTimes(s0, player.staminaRegenRate, elapsedTime)
      invariant elapsedTime > 0 ==> enemy.health > 0 && player.health > 0
      decreases enemy.health + player.health
    {
      // The player's turn.
      var playerAttack := Max(0, player.damage - enemy.defense);
      var _ := enemy.TakeDamage(playerAttack);
      assert enemy.health == e0 - (elapsedTime + 1) * ph;
      if enemy.health <= 0 {
        WonInRound(e0, p0, ph, eh, elapsedTime);
        break;
      }
      elapsedTime := elapsedTime + 1;

      // Stamina regenerates, capped at 100.
      player.stamina := player.stamina + player.staminaRegenRate;
      if player.stamina > 100 {
        player.stamina := 100;
      }

      // The enemy's turn.
      var enemyAttack := Max(0, enemy.attackPower - player.defense);
      player.health := player.health - enemyAttack;
      assert player.health == p0 - elapsedTime * eh;
      if player.health <= 0 {
        LostInRound(e0, p0, ph, eh, elapsedTime);
        break;
      }
    }
  }
}

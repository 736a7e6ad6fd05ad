/** A destructible block: its health, the money each dig pays and the reward paid when
    a dig leaves it at zero health (Block). */
module Blocks {
  import opened Economy

  /** Health after a dig of the given damage, clamped at zero (Math.Max(0, health - damage)). */
  function DiggedHealth(health: int, damage: int): (r: int)
    ensures r >= 0 && r >= health - damage
    ensures r == 0 || r == health - damage
    ensures 0 <= damage && 0 <= health ==> r <= health
  {
    if health - damage > 0 then health - damage else 0
  }

  class Block {
    const maxHealth: int
    const reward: int
    var curHealth: int
    /** False once Deactive has made the block's image transparent. */
    var visible: bool

    /** A block as instantiated from its prefab: Awake sets the health to the maximum. */
    constructor (maxHealth: int, reward: int)
      ensures this.maxHealth == maxHealth && this.reward == reward
      ensures curHealth == maxHealth && visible
    {
      this.maxHealth := maxHealth;
      this.reward := reward;
      curHealth := maxHealth;
      visible := true;
    }

    /** Dig pays the whole damage even when it exceeds the remaining health; a dig that
        leaves the health at zero also pays the reward and raises onDigged (the result).
        Nothing stops this from happening again on a block that is already at zero. */
    method Dig(damage: int, gm: GameManager) returns (digged: bool)
      modifies this`curHealth, this`visible, gm`money
      ensures curHealth == DiggedHealth(old(curHealth), damage)
      ensures digged <==> curHealth <= 0
      ensures gm.money == old(gm.money) + damage + (if digged then reward else 0)
      ensures visible == (old(visible) && !digged)
    {
      curHealth := DiggedHealth(curHealth, damage);
      gm.AddMoney(damage);
      digged := curHealth <= 0;
      if digged {
        Digged(gm);
      }
    }

    /** Pays the reward and deactivates; raising onDigged is reported by Dig. */
    method Digged(gm: GameManager)
      modifies this`visible, gm`money
      ensures gm.money == old(gm.money) + reward && !visible
    {
      gm.AddMoney(reward);
      Deactive();
    }

    method Deactive()
      modifies this`visible
      ensures !visible
    {
      visible := false;
    }

    /** The curHealth setter: stores the value and pays nothing. */
    method SetCurHealth(value: int)
      modifies this`curHealth
      ensures curHealth == value
    {
      curHealth := value;
    }
  }

  /** A fresh block with maximum health 5 and reward 5, dug twice with damage 3, goes
      5, 2, 0 and pays 3 + 3 + 5. */
  method DigTwiceScenario() returns (health: int, earned: int)
    ensures health == 0 && earned == 11
  {
    var gm := new GameManager();
    var block := new Block(5, 5);
    var first := block.Dig(3, gm);
    assert block.curHealth == 2 && !first;
    var second := block.Dig(3, gm);
    health, earned := block.curHealth, gm.money;
  }

  /** Digging a block that is already at zero pays the damage and the reward again and
      raises onDigged again. */
  method DigDepletedScenario(damage: int) returns (digged: bool, earned: int)
    requires damage >= 0
    ensures digged && earned == damage + 5
  {
    var gm := new GameManager();
    var block := new Block(5, 5);
    block.SetCurHealth(0);
    digged := block.Dig(damage, gm);
    earned := gm.money;
  }
}

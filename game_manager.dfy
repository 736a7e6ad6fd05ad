/** The wallet and level counter of GameManager (static PlayerMoney and CurrentLevel in
    the game), with their persistence under the keys "LVL" and "Money". */
module Economy {
  import opened Prefs

  /** A change of the wallet: AddMoney or SpendMoney with the given amount. */
  datatype MoneyOp = Add(amount: int) | Spend(amount: int)

  /** The wallet after one operation; a spend that exceeds the funds is refused. */
  function ApplyOp(money: int, op: MoneyOp): (r: int)
    ensures money >= 0 && (op.Spend? || op.amount >= 0) ==> r >= 0
    ensures op.Spend? ==> (r != money ==> r == money - op.amount) && (r == money - op.amount <== money >= op.amount)
    ensures op.Spend? && op.amount > 0 ==> (r < money <==> op.amount <= money)
    ensures op.Spend? && money < op.amount ==> r == money
    ensures op.Add? && op.amount >= 0 ==> r >= money
  {
    match op
    case Add(a) => money + a
    case Spend(a) => if money >= a then money - a else money
  }

  function ApplyOps(money: int, ops: seq<MoneyOp>): int
    decreases |ops|
  {
    if ops == [] then money else ApplyOps(ApplyOp(money, ops[0]), ops[1..])
  }

  /** Starting from non-negative funds, non-negative additions and spends never drive
      the wallet below zero. */
  lemma {:induction false} MoneyNeverNegative(money: int, ops: seq<MoneyOp>)
    requires money >= 0
    requires forall i :: 0 <= i < |ops| ==> ops[i].amount >= 0
    ensures ApplyOps(money, ops) >= 0
    decreases |ops|
  {
    if ops != [] {
      MoneyNeverNegative(ApplyOp(money, ops[0]), ops[1..]);
    }
  }

  /** A refused spend leaves the funds unchanged, so a refused spend is absorbed:
      adding the same operations after it gives the same wallet as leaving it out. */
  lemma RefusedSpendIsNoOp(money: int, amount: int, rest: seq<MoneyOp>)
    requires money < amount
    ensures ApplyOps(money, [Spend(amount)] + rest) == ApplyOps(money, rest)
  {
    assert ([Spend(amount)] + rest)[1..] == rest;
  }

  /** The store after GameManager.SaveData. */
  function SaveEconomy(m: map<string, int>, level: int, money: int): map<string, int>
  {
    m[LevelKey := level][MoneyKey := money]
  }

  /** (level, money) as GameManager.LoadData reads them, with defaults 1 and 0. */
  function LoadEconomy(m: map<string, int>): (r: (int, int))
    ensures LevelKey !in m && MoneyKey !in m ==> r == (1, 0)
  {
    (Lookup(m, LevelKey, 1), Lookup(m, MoneyKey, 0))
  }

  /** Saving then loading restores level and money, whatever the store held before. */
  lemma {:induction false} EconomyRoundTrip(m: map<string, int>, level: int, money: int)
    ensures LoadEconomy(SaveEconomy(m, level, money)) == (level, money)
  {
    KeyNamespacesDisjoint(0, 0);
  }

  class GameManager {
    var level: int
    var money: int
    /** Number of NextLevel calls scheduled by Invoke and not yet run. */
    var pendingNextLevel: nat

    constructor ()
      ensures level == 1 && money == 0 && pendingNextLevel == 0
    {
      level, money, pendingNextLevel := 1, 0, 0;
    }

    method AddMoney(amount: int)
      modifies this`money
      ensures money == old(money) + amount
      ensures money == ApplyOp(old(money), Add(amount))
    {
      money := money + amount;
    }

    method SpendMoney(amount: int) returns (ok: bool)
      modifies this`money
      ensures ok <==> old(money) >= amount
      ensures ok ==> money == old(money) - amount
      ensures !ok ==> money == old(money)
      ensures money == ApplyOp(old(money), Spend(amount))
    {
      ok := money >= amount;
      if ok {
        money := money - amount;
      }
    }

    /** OnLevelCompleted: schedules NextLevel to run later (Invoke with a delay). */
    method OnLevelCompleted()
      modifies this`pendingNextLevel
      ensures pendingNextLevel == old(pendingNextLevel) + 1
    {
      pendingNextLevel := pendingNextLevel + 1;
    }

    method SaveData(prefs: PlayerPrefs)
      modifies prefs`entries
      ensures prefs.entries == SaveEconomy(old(prefs.entries), level, money)
    {
      prefs.SetInt(LevelKey, level);
      prefs.SetInt(MoneyKey, money);
    }

    method LoadData(prefs: PlayerPrefs)
      modifies this`level, this`money
      ensures (level, money) == LoadEconomy(prefs.entries)
    {
      level := prefs.GetInt(LevelKey, 1);
      money := prefs.GetInt(MoneyKey, 0);
    }
  }
}

/** The level flow of GameManager: generating a level, advancing to the next one, and
    scheduling the advance when the spawner reports that every block is depleted. */
module Progression {
  import opened Economy
  import opened Blocks
  import opened Spawner

  /** GenerateLevel: sets the level counter, then lets the spawner build that level's lineup. */
  method GenerateLevel(gm: GameManager, spawner: BlockSpawner, level: int, next: (int, int, int) -> int)
    requires |spawner.prefabs| > 0
    modifies gm`level, spawner`lvlBlocks, spawner`generated
    ensures gm.level == level
    ensures spawner.Valid() && spawner.generated && |spawner.lvlBlocks| == spawner.blocksCount
    ensures forall i :: 0 <= i < spawner.blocksCount ==>
              && fresh(spawner.lvlBlocks[i])
              && InstanceOf(spawner.lvlBlocks[i], spawner.prefabs[BlockIndex(spawner.blocksCount, level, i, |spawner.prefabs|, next)])
  {
    gm.level := level;
    spawner.GenerateBlocks(gm.level, next);
  }

  method NextLevel(gm: GameManager, spawner: BlockSpawner, next: (int, int, int) -> int)
    requires |spawner.prefabs| > 0
    modifies gm`level, spawner`lvlBlocks, spawner`generated
    ensures gm.level == old(gm.level) + 1
    ensures spawner.Valid() && spawner.generated && |spawner.lvlBlocks| == spawner.blocksCount
    ensures forall i :: 0 <= i < spawner.blocksCount ==>
              && fresh(spawner.lvlBlocks[i])
              && InstanceOf(spawner.lvlBlocks[i], spawner.prefabs[BlockIndex(spawner.blocksCount, gm.level, i, |spawner.prefabs|, next)])
  {
    GenerateLevel(gm, spawner, gm.level + 1, next);
  }

  /** A block's onDigged: the spawner's CheckBlocks, whose onDiggedAll makes the game
      schedule NextLevel. Every call that finds the lineup depleted schedules one more. */
  method OnBlockDigged(gm: GameManager, spawner: BlockSpawner) returns (diggedAll: bool)
    requires spawner.generated
    modifies gm`pendingNextLevel
    ensures diggedAll <==> forall i :: 0 <= i < |spawner.lvlBlocks| ==> spawner.lvlBlocks[i].curHealth <= 0
    ensures gm.pendingNextLevel == old(gm.pendingNextLevel) + (if diggedAll then 1 else 0)
  {
    diggedAll := spawner.CheckBlocks();
    if diggedAll {
      gm.OnLevelCompleted();
    }
  }

  /** The delayed NextLevel that OnLevelCompleted scheduled comes due. */
  method RunScheduledNextLevel(gm: GameManager, spawner: BlockSpawner, next: (int, int, int) -> int)
    requires gm.pendingNextLevel > 0 && |spawner.prefabs| > 0
    modifies gm`level, gm`pendingNextLevel, spawner`lvlBlocks, spawner`generated
    ensures gm.pendingNextLevel == old(gm.pendingNextLevel) - 1
    ensures gm.level == old(gm.level) + 1
    ensures spawner.Valid() && spawner.generated && |spawner.lvlBlocks| == spawner.blocksCount
    ensures forall i :: 0 <= i < spawner.blocksCount ==>
              && fresh(spawner.lvlBlocks[i])
              && InstanceOf(spawner.lvlBlocks[i], spawner.prefabs[BlockIndex(spawner.blocksCount, gm.level, i, |spawner.prefabs|, next)])
  {
    gm.pendingNextLevel := gm.pendingNextLevel - 1;
    NextLevel(gm, spawner, next);
  }

  /** A one-block level whose block is dug once more after it is depleted: the second dig
      pays again and schedules a second NextLevel, so the counter advances by two. */
  method LevelSkipScenario() returns (level: int, earned: int)
    ensures level == 3 && earned == 2 * (5 + 5)
  {
    var gm := new GameManager();
    var spawner := new BlockSpawner([BlockPrefab(5, 5)], 1);
    var next := (seed: int, lo: int, hi: int) => lo;
    GenerateLevel(gm, spawner, 1, next);
    var block := spawner.lvlBlocks[0];
    var first := block.Dig(5, gm);
    var all1 := OnBlockDigged(gm, spawner);
    var second := block.Dig(5, gm);
    var all2 := OnBlockDigged(gm, spawner);
    assert gm.pendingNextLevel == 2;
    earned := gm.money;
    RunScheduledNextLevel(gm, spawner, next);
    RunScheduledNextLevel(gm, spawner, next);
    level := gm.level;
  }
}

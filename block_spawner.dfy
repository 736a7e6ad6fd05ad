/** BlockSpawner: the deterministic choice of the blocks of a level, the check that every
    block of the level is depleted, and the persistence of block health under "block{i}". */
module Spawner {
  import opened Collections
  import opened Prefs
  import opened Blocks

  /** SeedLvlGeneration: a fixed offset that makes every level's lineup reproducible. */
  const SeedLvlGeneration: int := 416

  /** The configuration of a block prefab that the spawner instantiates. */
  datatype BlockPrefab = BlockPrefab(maxHealth: int, reward: int)

  /** The seed of the fresh generator used for block i of a level. */
  function Seed(count: int, level: int, i: int): (r: int)
    ensures 0 <= i < count ==> SeedLvlGeneration + count * level <= r < SeedLvlGeneration + count * (level + 1)
  {
    SeedLvlGeneration + count * level + i
  }

  /** Within one lineup size, no two (level, index) pairs share a seed: each block of each
      level gets a generator of its own. */
  lemma SeedsDistinct(count: nat, level1: int, i1: nat, level2: int, i2: nat)
    requires i1 < count && i2 < count
    requires (level1, i1) != (level2, i2)
    ensures Seed(count, level1, i1) != Seed(count, level2, i2)
  {
    if level1 < level2 {
      LaterLevelSeedsAbove(count, level1, i1, level2, i2);
    } else if level2 < level1 {
      LaterLevelSeedsAbove(count, level2, i2, level1, i1);
    }
  }

  /** Every seed of a later level exceeds every seed of an earlier one. */
  lemma LaterLevelSeedsAbove(count: nat, lo: int, ilo: nat, hi: int, ihi: nat)
    requires ilo < count && lo < hi
    ensures Seed(count, lo, ilo) < Seed(count, hi, ihi)
  {
    var d := hi - lo;
    assert count * hi == count * lo + count * d;
    MulAtLeast(count, d);
  }

  lemma {:induction false} MulAtLeast(c: nat, d: int)
    requires d >= 1
    ensures c * d >= c
    decreases d
  {
    if d > 1 {
      MulAtLeast(c, d - 1);
      assert c * d == c * (d - 1) + c;
    }
  }

  /** C#'s level / 3, which truncates toward zero. */
  function LevelThird(level: int): (q: int)
    ensures level >= 0 ==> 0 <= 3 * q <= level < 3 * q + 3
    ensures level < 0 ==> 3 * q - 3 < level <= 3 * q <= 0
  {
    if level >= 0 then level / 3 else -((-level) / 3)
  }

  /** Mathf.Clamp(value, min, max). */
  function Clamp(value: int, min: int, max: int): (r: int)
    ensures min <= max ==> min <= r <= max
    ensures min <= value <= max ==> r == value
  {
    if value < min then min else if value > max then max else value
  }

  /** What the game needs of new System.Random(seed).Next(lo, hi): a value in [lo, hi)
      that depends on the seed and the bounds alone. */
  ghost predicate IsRandomNext(next: (int, int, int) -> int)
  {
    forall seed, lo, hi :: lo < hi ==> lo <= next(seed, lo, hi) < hi
  }

  /** The unclamped draw for block i: Next(level / 3 - 2, level / 3 + 1) of that block's generator. */
  function Draw(count: int, level: int, i: int, next: (int, int, int) -> int): (r: int)
    ensures IsRandomNext(next) ==> LevelThird(level) - 2 <= r <= LevelThird(level)
  {
    next(Seed(count, level, i), LevelThird(level) - 2, LevelThird(level) + 1)
  }

  /** The prefab index of block i: the draw clamped into the prefab array. It is always a
      valid index, and with a proper generator it lies within two tiers below level / 3. */
  function BlockIndex(count: int, level: int, i: int, prefabCount: int, next: (int, int, int) -> int): (r: int)
    requires prefabCount > 0
    ensures 0 <= r < prefabCount
    ensures IsRandomNext(next) ==>
              Clamp(LevelThird(level) - 2, 0, prefabCount - 1) <= r <= Clamp(LevelThird(level), 0, prefabCount - 1)
  {
    Clamp(Draw(count, level, i, next), 0, prefabCount - 1)
  }

  /** The health of every block of a lineup, in order. */
  function HealthsOf(bs: seq<Block>): (hs: seq<int>)
    reads bs
    ensures |hs| == |bs|
  {
    seq(|bs|, i requires 0 <= i < |bs| reads bs => bs[i].curHealth)
  }

  /** What the scene shows of a block: its prefab's figures, its health and whether its
      image is visible. */
  datatype BlockView = BlockView(maxHealth: int, reward: int, curHealth: int, visible: bool)

  function ViewsOf(bs: seq<Block>): (vs: seq<BlockView>)
    reads bs
    ensures |vs| == |bs|
  {
    seq(|bs|, i requires 0 <= i < |bs| reads bs => BlockView(bs[i].maxHealth, bs[i].reward, bs[i].curHealth, bs[i].visible))
  }

  /** Block i of prefab p restored from the store m: the stored health when key block{i}
      is present and the maximum otherwise, hidden exactly when a stored health is at or
      below zero. */
  function RestoredView(p: BlockPrefab, i: nat, m: map<string, int>): BlockView
  {
    BlockView(p.maxHealth, p.reward, Lookup(m, BlockKey(i), p.maxHealth), !(BlockKey(i) in m && m[BlockKey(i)] <= 0))
  }

  /** The lineup of `level` as restored from the store m. */
  function RestoredLineup(prefabs: seq<BlockPrefab>, count: nat, level: int, next: (int, int, int) -> int,
                          m: map<string, int>): (vs: seq<BlockView>)
    requires |prefabs| > 0
    ensures |vs| == count
  {
    seq(count, i requires 0 <= i < count => RestoredView(prefabs[BlockIndex(count, level, i, |prefabs|, next)], i, m))
  }

  /** Block b is a newly instantiated copy of prefab p. */
  ghost predicate InstanceOf(b: Block, p: BlockPrefab)
    reads b
  {
    b.maxHealth == p.maxHealth && b.reward == p.reward && b.curHealth == p.maxHealth && b.visible
  }

  /** Saving health then loading it gives back each block's health, whatever the store held. */
  lemma BlockHealthRoundTrip(m: map<string, int>, hs: seq<int>, i: nat, maxHealth: int)
    requires i < |hs|
    ensures Lookup(WriteIndexed(m, "block", hs), BlockKey(i), maxHealth) == hs[i]
  {
    WriteIndexedAt(m, "block", hs, i);
  }

  class BlockSpawner {
    /** The prefabs, in order of increasing health. */
    const prefabs: seq<BlockPrefab>
    const blocksCount: nat
    var lvlBlocks: seq<Block>
    /** False while _lvlBlocks is null, before the first generation. */
    var generated: bool

    ghost predicate Valid()
      reads this
    {
      && (!generated ==> lvlBlocks == [])
      && (generated ==> |lvlBlocks| == blocksCount)
      && NoDuplicates(lvlBlocks)
    }

    constructor (prefabs: seq<BlockPrefab>, blocksCount: nat)
      ensures Valid() && this.prefabs == prefabs && this.blocksCount == blocksCount
      ensures !generated
    {
      this.prefabs := prefabs;
      this.blocksCount := blocksCount;
      lvlBlocks := [];
      generated := false;
    }

    /** Replaces the lineup by blocksCount new blocks; block i copies the prefab that
        block i's own seeded generator picks for this level. */
    method GenerateBlocks(level: int, next: (int, int, int) -> int)
      requires |prefabs| > 0
      modifies this`lvlBlocks, this`generated
      ensures Valid() && generated && |lvlBlocks| == blocksCount
      ensures forall i :: 0 <= i < blocksCount ==>
                fresh(lvlBlocks[i]) && InstanceOf(lvlBlocks[i], prefabs[BlockIndex(blocksCount, level, i, |prefabs|, next)])
    {
      ClearBlocks();
      var blocks: seq<Block> := [];
      var i := 0;
      while i < blocksCount
        invariant 0 <= i <= blocksCount && |blocks| == i
        invariant NoDuplicates(blocks)
        invariant forall j :: 0 <= j < i ==>
                    fresh(blocks[j]) && InstanceOf(blocks[j], prefabs[BlockIndex(blocksCount, level, j, |prefabs|, next)])
      {
        var blockIndex := Clamp(next(Seed(blocksCount, level, i), LevelThird(level) - 2, LevelThird(level) + 1), 0, |prefabs| - 1);
        var prefab := prefabs[blockIndex];
        var block := new Block(prefab.maxHealth, prefab.reward);
        blocks := blocks + [block];
        i := i + 1;
      }
      lvlBlocks := blocks;
      generated := true;
    }

    /** Drops the current lineup (the game destroys its blocks). */
    method ClearBlocks()
      modifies this`lvlBlocks, this`generated
      ensures Valid() && !generated
    {
      lvlBlocks := [];
      generated := false;
    }

    /** The onDigged handler: onDiggedAll (the result) is raised exactly when no block of
        the lineup has health left. */
    method CheckBlocks() returns (diggedAll: bool)
      requires generated
      ensures diggedAll <==> forall i :: 0 <= i < |lvlBlocks| ==> lvlBlocks[i].curHealth <= 0
    {
      var i := 0;
      while i < |lvlBlocks|
        invariant 0 <= i <= |lvlBlocks|
        invariant forall j :: 0 <= j < i ==> lvlBlocks[j].curHealth <= 0
      {
        if lvlBlocks[i].curHealth > 0 {
          return false;
        }
        i := i + 1;
      }
      return true;
    }

    /** Writes block{i} = health of block i for the whole lineup; nothing before the first generation. */
    method SaveData(prefs: PlayerPrefs)
      modifies prefs`entries
      ensures generated ==> prefs.entries == WriteIndexed(old(prefs.entries), "block", HealthsOf(lvlBlocks))
      ensures !generated ==> prefs.entries == old(prefs.entries)
    {
      if !generated {
        return;
      }
      ghost var hs := HealthsOf(lvlBlocks);
      var i := 0;
      while i < |lvlBlocks|
        invariant 0 <= i <= |lvlBlocks|
        invariant prefs.entries == WriteIndexed(old(prefs.entries), "block", hs[..i])
      {
        prefs.SetInt(BlockKey(i), lvlBlocks[i].curHealth);
        assert hs[..i + 1][..i] == hs[..i];
        i := i + 1;
      }
      assert hs[..i] == hs;
    }

    /** The blocks are the lineup of `level` with the health stored in `m`, block by block
        as RestoredView gives it. */
    ghost predicate RestoredFrom(level: int, next: (int, int, int) -> int, m: map<string, int>)
      reads this, lvlBlocks
    {
      |prefabs| > 0 && Valid() && generated && ViewsOf(lvlBlocks) == RestoredLineup(prefabs, blocksCount, level, next, m)
    }

    /** Regenerates the level, then restores the health of every block whose key is in
        the store; a restored health at or below zero only deactivates the block. */
    method LoadData(level: int, next: (int, int, int) -> int, prefs: PlayerPrefs)
      requires |prefabs| > 0
      modifies this`lvlBlocks, this`generated
      ensures Valid() && generated && |lvlBlocks| == blocksCount
      ensures forall i :: 0 <= i < blocksCount ==> fresh(lvlBlocks[i])
      ensures RestoredFrom(level, next, prefs.entries)
    {
      GenerateBlocks(level, next);
      var i := 0;
      while i < |lvlBlocks|
        invariant 0 <= i <= |lvlBlocks| == blocksCount
        invariant Valid() && generated
        invariant forall j :: 0 <= j < blocksCount ==> fresh(lvlBlocks[j])
        invariant forall j :: 0 <= j < blocksCount ==>
                    var p := prefabs[BlockIndex(blocksCount, level, j, |prefabs|, next)];
                    && lvlBlocks[j].maxHealth == p.maxHealth && lvlBlocks[j].reward == p.reward
                    && (j >= i ==> InstanceOf(lvlBlocks[j], p))
                    && (j < i ==> lvlBlocks[j].curHealth == Lookup(prefs.entries, BlockKey(j), p.maxHealth))
                    && (j < i ==> lvlBlocks[j].visible == !(BlockKey(j) in prefs.entries && prefs.entries[BlockKey(j)] <= 0))
      {
        var block := lvlBlocks[i];
        if prefs.HasKey(BlockKey(i)) {
          block.SetCurHealth(prefs.GetInt(BlockKey(i), 0));
          if block.curHealth <= 0 {
            block.Deactive();
          }
        }
        i := i + 1;
      }
      ghost var restored := RestoredLineup(prefabs, blocksCount, level, next, prefs.entries);
      forall j | 0 <= j < blocksCount ensures ViewsOf(lvlBlocks)[j] == restored[j] {
      }
    }
  }
}

/** The save manager: the registry of save systems, the save of them all into the store
    (on quit and on pause) and the load of them all. The three save systems of the game are
    the economy, the block spawner and the inventory; the interface they share becomes a
    datatype with one variant each. */
module Saving {
  import opened Collections
  import opened Prefs
  import opened Economy
  import opened Blocks
  import opened Spawner
  import opened Inventories

  /** A registered save system. The economy's state is the game manager's static level and
      money, held by the save manager's `game`. */
  datatype SaveSystem =
    | EconomySave
    | SpawnerSave(spawner: BlockSpawner)
    | InventorySave(inventory: Inventory)

  /** What a save system writes: level and money; whether a level is generated and the
      health of each block; the level held in each cell. */
  datatype SystemData =
    | EconomyData(level: int, money: int)
    | SpawnerData(generated: bool, healths: seq<int>)
    | InventoryData(levels: seq<int>)

  /** The store after one system's SaveData. */
  function SaveOne(m: map<string, int>, d: SystemData): (r: map<string, int>)
    ensures m.Keys <= r.Keys
  {
    match d
    case EconomyData(level, money) => SaveEconomy(m, level, money)
    case SpawnerData(generated, healths) => if generated then WriteIndexed(m, "block", healths) else m
    case InventoryData(levels) => WriteIndexed(m, "cell", levels)
  }

  /** The store after every system's SaveData, in registry order. */
  function SaveAll(m: map<string, int>, ds: seq<SystemData>): (r: map<string, int>)
    ensures m.Keys <= r.Keys
  {
    if ds == [] then m else SaveOne(SaveAll(m, ds[..|ds| - 1]), ds[|ds| - 1])
  }

  /** The keys a system's SaveData writes. */
  predicate Writes(d: SystemData, key: string)
  {
    match d
    case EconomyData(_, _) => key == LevelKey || key == MoneyKey
    case SpawnerData(generated, healths) => generated && exists i: nat :: i < |healths| && key == BlockKey(i)
    case InventoryData(levels) => exists i: nat :: i < |levels| && key == CellKey(i)
  }

  /** A save leaves every key it does not write as it was. */
  lemma SaveOneOther(m: map<string, int>, d: SystemData, key: string)
    requires !Writes(d, key)
    ensures key in SaveOne(m, d) <==> key in m
    ensures key in m ==> SaveOne(m, d)[key] == m[key]
  {
    match d
    case EconomyData(_, _) =>
    case SpawnerData(generated, healths) =>
      if generated {
        forall i: nat | i < |healths|
          ensures key != IndexedKey("block", i)
        {
          assert !(key == BlockKey(i));
        }
        WriteIndexedOther(m, "block", healths, key);
      }
    case InventoryData(levels) =>
      forall i: nat | i < |levels|
        ensures key != IndexedKey("cell", i)
      {
        assert !(key == CellKey(i));
      }
      WriteIndexedOther(m, "cell", levels, key);
  }

  lemma {:induction false} SaveAllOther(m: map<string, int>, ds: seq<SystemData>, key: string)
    requires forall j :: 0 <= j < |ds| ==> !Writes(ds[j], key)
    ensures key in SaveAll(m, ds) <==> key in m
    ensures key in m ==> SaveAll(m, ds)[key] == m[key]
  {
    if ds != [] {
      var n := |ds| - 1;
      SaveAllOther(m, ds[..n], key);
      SaveOneOther(SaveAll(m, ds[..n]), ds[n], key);
    }
  }

  /** Saving a concatenation is saving one part, then the other. */
  lemma {:induction false} SaveAllAppend(m: map<string, int>, a: seq<SystemData>, b: seq<SystemData>)
    ensures SaveAll(m, a + b) == SaveAll(SaveAll(m, a), b)
  {
    if b == [] {
      assert a + b == a;
    } else {
      var n := |b| - 1;
      assert (a + b)[..|a + b| - 1] == a + b[..n];
      SaveAllAppend(m, a, b[..n]);
    }
  }

  /** The store after all saves holds, at each key the k-th system writes and no later
      system writes, what the first k + 1 saves left there. */
  lemma SaveAllFrom(m: map<string, int>, ds: seq<SystemData>, k: nat, key: string)
    requires k < |ds|
    requires forall j :: k < j < |ds| ==> !Writes(ds[j], key)
    requires key in SaveAll(m, ds[..k + 1])
    ensures key in SaveAll(m, ds) && SaveAll(m, ds)[key] == SaveAll(m, ds[..k + 1])[key]
  {
    var rest := ds[k + 1..];
    assert ds == ds[..k + 1] + rest;
    SaveAllAppend(m, ds[..k + 1], rest);
    SaveAllOther(SaveAll(m, ds[..k + 1]), rest, key);
  }

  /** The economy is restored from a save of all systems: level and money come from the
      last economy system saved. */
  lemma {:induction false} EconomyRestored(m: map<string, int>, ds: seq<SystemData>, k: nat)
    requires k < |ds| && ds[k].EconomyData?
    requires forall j :: k < j < |ds| ==> !ds[j].EconomyData?
    ensures LoadEconomy(SaveAll(m, ds)) == (ds[k].level, ds[k].money)
  {
    assert ds[..k + 1][..k] == ds[..k];
    KeyNamespacesDisjoint(0, 0);
    forall j | k < j < |ds|
      ensures !Writes(ds[j], LevelKey) && !Writes(ds[j], MoneyKey)
    {
      forall i: nat
        ensures BlockKey(i) != LevelKey && BlockKey(i) != MoneyKey
        ensures CellKey(i) != LevelKey && CellKey(i) != MoneyKey
      {
        KeyNamespacesDisjoint(i, i);
      }
    }
    SaveAllFrom(m, ds, k, LevelKey);
    SaveAllFrom(m, ds, k, MoneyKey);
  }

  /** The cells are restored from a save of all systems: each cell gets the level the last
      inventory saved for it. */
  lemma {:induction false} CellsRestored(m: map<string, int>, ds: seq<SystemData>, k: nat)
    requires k < |ds| && ds[k].InventoryData?
    requires forall j :: k < j < |ds| ==> !ds[j].InventoryData?
    requires forall i :: 0 <= i < |ds[k].levels| ==> ds[k].levels[i] >= -1
    ensures LoadedLevels(SaveAll(m, ds), |ds[k].levels|) == ds[k].levels
  {
    var levels := ds[k].levels;
    var saved := SaveAll(m, ds[..k + 1]);
    assert ds[..k + 1][..k] == ds[..k];
    var loaded := LoadedLevels(SaveAll(m, ds), |levels|);
    forall i | 0 <= i < |levels|
      ensures loaded[i] == levels[i]
    {
      WriteIndexedAt(SaveAll(m, ds[..k]), "cell", levels, i);
      forall j | k < j < |ds|
        ensures !Writes(ds[j], CellKey(i))
      {
        KeyNamespacesDisjoint(0, i);
        forall b: nat
          ensures BlockKey(b) != CellKey(i)
        {
          KeyNamespacesDisjoint(b, i);
        }
      }
      SaveAllFrom(m, ds, k, CellKey(i));
    }
  }

  /** The blocks are restored from a save of all systems: each block's key holds the health
      the last spawner saved for it, when that spawner had generated a level. */
  lemma {:induction false} BlocksRestored(m: map<string, int>, ds: seq<SystemData>, k: nat, i: nat)
    requires k < |ds| && ds[k].SpawnerData? && ds[k].generated && i < |ds[k].healths|
    requires forall j :: k < j < |ds| ==> !ds[j].SpawnerData?
    ensures BlockKey(i) in SaveAll(m, ds) && SaveAll(m, ds)[BlockKey(i)] == ds[k].healths[i]
  {
    assert ds[..k + 1][..k] == ds[..k];
    WriteIndexedAt(SaveAll(m, ds[..k]), "block", ds[k].healths, i);
    forall j | k < j < |ds|
      ensures !Writes(ds[j], BlockKey(i))
    {
      forall c: nat
        ensures BlockKey(i) != CellKey(c)
      {
        KeyNamespacesDisjoint(i, c);
      }
    }
    SaveAllFrom(m, ds, k, BlockKey(i));
  }

  /** Flushes done by the systems' own SaveData: the inventory flushes once. */
  function SystemFlushes(ds: seq<SystemData>): nat
  {
    if ds == [] then 0
    else SystemFlushes(ds[..|ds| - 1]) + (if ds[|ds| - 1].InventoryData? then 1 else 0)
  }

  /** The objects whose fields a system's data depends on, apart from the game. */
  ghost function Anchors(s: SaveSystem): set<object>
  {
    match s
    case EconomySave => {}
    case SpawnerSave(spawner) => {spawner}
    case InventorySave(inventory) => set c: object | c in inventory.cells
  }

  ghost function ReadsOf(s: SaveSystem): set<object>
    reads Anchors(s)
  {
    match s
    case EconomySave => {}
    case SpawnerSave(spawner) => {spawner as object} + set b: object | b in spawner.lvlBlocks
    case InventorySave(inventory) => (set c: object | c in inventory.cells) + inventory.Held()
  }

  /** What a system would save now. */
  ghost function DataOf(game: GameManager, s: SaveSystem): SystemData
    reads game, Anchors(s), ReadsOf(s)
  {
    match s
    case EconomySave => EconomyData(game.level, game.money)
    case SpawnerSave(spawner) => SpawnerData(spawner.generated, HealthsOf(spawner.lvlBlocks))
    case InventorySave(inventory) => InventoryData(inventory.Levels())
  }

  /** The objects a system's LoadData may change. */
  ghost function LoadTargets(game: GameManager, s: SaveSystem): set<object>
  {
    match s
    case EconomySave => {game}
    case SpawnerSave(spawner) => {spawner}
    case InventorySave(inventory) => {inventory as object} + set c: object | c in inventory.cells
  }

  /** The objects the LoadData of all systems may change. */
  ghost function LoadFrame(game: GameManager, ss: seq<SaveSystem>): set<object>
  {
    set i, o | 0 <= i < |ss| && o in LoadTargets(game, ss[i]) :: o
  }

  /** Loading touches neither the save manager nor the store. */
  lemma OutsideLoadFrame(game: GameManager, ss: seq<SaveSystem>, manager: object, prefs: PlayerPrefs)
    requires manager is SaveManager
    ensures manager !in LoadFrame(game, ss) && prefs !in LoadFrame(game, ss)
  {
  }

  /** What a system's LoadData needs: a spawner has prefabs to pick from, an inventory
      has distinct cells and a prefab it can copy. */
  ghost predicate Loadable(s: SaveSystem)
  {
    match s
    case EconomySave => true
    case SpawnerSave(spawner) => |spawner.prefabs| > 0
    case InventorySave(inventory) => inventory.Valid()
  }

  /** The registry entry at `j` is not registered again before position `i`. */
  ghost predicate LastLoad(ss: seq<SaveSystem>, j: int, i: int)
    decreases i
  {
    0 <= j < i <= |ss| && (i == j + 1 || (ss[i - 1] != ss[j] && LastLoad(ss, j, i - 1)))
  }

  /** Every entry before position n is last registered at some k >= j before n. */
  lemma {:induction false} LastOccurrence(ss: seq<SaveSystem>, j: nat, n: int) returns (k: nat)
    requires j < n <= |ss|
    ensures j <= k < n && ss[k] == ss[j] && LastLoad(ss, k, n)
    decreases n
  {
    if n - 1 == j || ss[n - 1] == ss[j] {
      k := n - 1;
    } else {
      k := LastOccurrence(ss, j, n - 1);
    }
  }

  /** Some entry before position `i` is the economy. */
  ghost predicate EconomyBefore(ss: seq<SaveSystem>, i: int)
    decreases i
  {
    0 < i <= |ss| && (ss[i - 1] == EconomySave || EconomyBefore(ss, i - 1))
  }

  /** The position of the last inventory before position i, or -1 when there is none. */
  ghost function LastInventoryBefore(ss: seq<SaveSystem>, i: int): (k: int)
    requires 0 <= i <= |ss|
    ensures -1 <= k < i && (k >= 0 ==> ss[k].InventorySave?)
    decreases i
  {
    if i == 0 then -1 else if ss[i - 1].InventorySave? then i - 1 else LastInventoryBefore(ss, i - 1)
  }

  /** An economy entry at k < i makes EconomyBefore(ss, i) hold. */
  lemma {:induction false} EconomyBeforeWitness(ss: seq<SaveSystem>, k: nat, i: int)
    requires k < i <= |ss| && ss[k] == EconomySave
    ensures EconomyBefore(ss, i)
    decreases i
  {
    if k < i - 1 {
      EconomyBeforeWitness(ss, k, i - 1);
    }
  }

  /** The last registered inventory is the last one before the end of the registry. */
  lemma {:induction false} LastInventoryFrom(ss: seq<SaveSystem>, k: int, n: int)
    requires 0 <= k < n <= |ss| && ss[k].InventorySave?
    requires forall j :: k < j < n ==> !ss[j].InventorySave?
    ensures LastInventoryBefore(ss, n) == k
    decreases n
  {
    if n - 1 > k {
      LastInventoryFrom(ss, k, n - 1);
    }
  }

  /** EconomyBefore over the whole registry is membership. */
  lemma EconomyBeforeAll(ss: seq<SaveSystem>)
    ensures EconomySave in ss ==> EconomyBefore(ss, |ss|)
  {
    if EconomySave in ss {
      var k :| 0 <= k < |ss| && ss[k] == EconomySave;
      EconomyBeforeWitness(ss, k, |ss|);
    }
  }

  /** Loading system i is among the changes loading the whole registry may make. */
  lemma TargetsInFrame(game: GameManager, ss: seq<SaveSystem>, i: nat)
    requires i < |ss|
    ensures LoadTargets(game, ss[i]) <= LoadFrame(game, ss)
  {
  }

  /** The current level while entry `i` loads: the stored one once the economy has loaded,
      the level before loading otherwise. */
  ghost function LevelAt(ss: seq<SaveSystem>, i: int, before: int, m: map<string, int>): int
  {
    if EconomyBefore(ss, i) then LoadEconomy(m).0 else before
  }

  /** The last registered inventory is at `k`. */
  ghost predicate LastInventory(ss: seq<SaveSystem>, k: int)
  {
    0 <= k < |ss| && ss[k].InventorySave? && forall j :: k < j < |ss| ==> !ss[j].InventorySave?
  }

  class SaveManager {
    /** The game manager's static state: the current level and the money. */
    const game: GameManager
    var saveSystems: seq<SaveSystem>

    constructor (game: GameManager)
      ensures this.game == game && saveSystems == []
    {
      this.game := game;
      saveSystems := [];
    }

    /** Registers a system once; registering it again changes nothing. */
    method RegisterSaveSystem(s: SaveSystem)
      modifies this`saveSystems
      ensures s in old(saveSystems) ==> saveSystems == old(saveSystems)
      ensures s !in old(saveSystems) ==> saveSystems == old(saveSystems) + [s]
      ensures NoDuplicates(old(saveSystems)) ==> NoDuplicates(saveSystems)
    {
      if s !in saveSystems {
        saveSystems := saveSystems + [s];
      }
    }

    method UnregisterSaveSystem(s: SaveSystem)
      modifies this`saveSystems
      ensures saveSystems == RemoveFirst(old(saveSystems), s)
      ensures NoDuplicates(old(saveSystems)) ==> NoDuplicates(saveSystems) && s !in saveSystems
    {
      if NoDuplicates(saveSystems) {
        RemoveFirstNoDuplicates(saveSystems, s);
      }
      saveSystems := RemoveFirst(saveSystems, s);
    }

    /** One system's SaveData. */
    method SaveSystemData(s: SaveSystem, prefs: PlayerPrefs, ghost others: seq<SaveSystem>)
      modifies prefs
      ensures prefs.entries == SaveOne(old(prefs.entries), old(DataOf(game, s)))
      ensures prefs.flushes == old(prefs.flushes) + if s.InventorySave? then 1 else 0
      ensures forall j :: 0 <= j < |others| ==> DataOf(game, others[j]) == old(DataOf(game, others[j]))
    {
      match s
      case EconomySave =>
        SaveEconomyData(prefs, others);
      case SpawnerSave(spawner) =>
        SaveSpawnerData(spawner, prefs, others);
      case InventorySave(inventory) =>
        SaveInventoryData(inventory, prefs, others);
    }

    method SaveEconomyData(prefs: PlayerPrefs, ghost others: seq<SaveSystem>)
      modifies prefs
      ensures prefs.entries == SaveOne(old(prefs.entries), old(DataOf(game, EconomySave)))
      ensures prefs.flushes == old(prefs.flushes)
      ensures forall j :: 0 <= j < |others| ==> DataOf(game, others[j]) == old(DataOf(game, others[j]))
    {
      game.SaveData(prefs);
    }

    method SaveSpawnerData(spawner: BlockSpawner, prefs: PlayerPrefs, ghost others: seq<SaveSystem>)
      modifies prefs
      ensures prefs.entries == SaveOne(old(prefs.entries), old(DataOf(game, SpawnerSave(spawner))))
      ensures prefs.flushes == old(prefs.flushes)
      ensures forall j :: 0 <= j < |others| ==> DataOf(game, others[j]) == old(DataOf(game, others[j]))
    {
      spawner.SaveData(prefs);
    }

    method SaveInventoryData(inventory: Inventory, prefs: PlayerPrefs, ghost others: seq<SaveSystem>)
      modifies prefs
      ensures prefs.entries == SaveOne(old(prefs.entries), old(DataOf(game, InventorySave(inventory))))
      ensures prefs.flushes == old(prefs.flushes) + 1
      ensures forall j :: 0 <= j < |others| ==> DataOf(game, others[j]) == old(DataOf(game, others[j]))
    {
      ghost var levels := inventory.Levels();
      inventory.SaveData(prefs);
      assert inventory.Levels() == levels;
    }

    /** One system's LoadData; a spawner regenerates the current level. Loading the economy
        or a spawner leaves the cells of any inventory `other` as they were, and loading
        the economy or an inventory leaves every spawner as it was. */
    method LoadSystemData(s: SaveSystem, prefs: PlayerPrefs, next: (int, int, int) -> int, ghost other: Inventory?)
      requires Loadable(s)
      modifies LoadTargets(game, s)
      ensures other != null && !s.InventorySave? ==> other.Levels() == old(other.Levels())
      ensures !s.EconomySave? ==> game.level == old(game.level) && game.money == old(game.money)
      ensures s.EconomySave? ==> (game.level, game.money) == LoadEconomy(prefs.entries)
      ensures s.SpawnerSave? ==> s.spawner.RestoredFrom(old(game.level), next, prefs.entries)
      ensures s.InventorySave? ==> s.inventory.Levels() == LoadedLevels(prefs.entries, |s.inventory.cells|)
    {
      match s
      case EconomySave =>
        LoadEconomyData(prefs, other);
      case SpawnerSave(spawner) =>
        LoadSpawnerData(spawner, prefs, next, other);
      case InventorySave(inventory) =>
        inventory.LoadData(prefs);
    }

    method LoadEconomyData(prefs: PlayerPrefs, ghost other: Inventory?)
      modifies game
      ensures other != null ==> other.Levels() == old(other.Levels())
      ensures (game.level, game.money) == LoadEconomy(prefs.entries)
    {
      ghost var levels := if other != null then other.Levels() else [];
      game.LoadData(prefs);
      assert other != null ==> other.Levels() == levels;
    }

    method LoadSpawnerData(spawner: BlockSpawner, prefs: PlayerPrefs, next: (int, int, int) -> int, ghost other: Inventory?)
      requires |spawner.prefabs| > 0
      modifies spawner
      ensures other != null ==> other.Levels() == old(other.Levels())
      ensures spawner.RestoredFrom(old(game.level), next, prefs.entries)
    {
      ghost var levels := if other != null then other.Levels() else [];
      spawner.LoadData(game.level, next, prefs);
      assert other != null ==> other.Levels() == levels;
    }

    /** Entry i of the registry loads while the level LevelAt is current. The facts that
        hold once the entries before i have loaded hold again with i included: the economy,
        if it loaded, is the stored one; every spawner whose last load has come keeps the
        blocks it restored; the last inventory so far holds the stored levels. */
    method LoadEntry(ss: seq<SaveSystem>, i: nat, prefs: PlayerPrefs, next: (int, int, int) -> int,
                     ghost level0: int, ghost m: map<string, int>)
      requires i < |ss| && Loadable(ss[i]) && prefs.entries == m
      requires EconomyBefore(ss, i) ==> (game.level, game.money) == LoadEconomy(m)
      requires game.level == LevelAt(ss, i, level0, m)
      requires forall j :: LastLoad(ss, j, i) && ss[j].SpawnerSave? ==>
                 ss[j].spawner.RestoredFrom(LevelAt(ss, j, level0, m), next, m)
      requires LastInventoryBefore(ss, i) >= 0 ==>
                 ss[LastInventoryBefore(ss, i)].inventory.Levels() ==
                 LoadedLevels(m, |ss[LastInventoryBefore(ss, i)].inventory.cells|)
      modifies LoadTargets(game, ss[i])
      ensures prefs.entries == m
      ensures EconomyBefore(ss, i + 1) ==> (game.level, game.money) == LoadEconomy(m)
      ensures game.level == LevelAt(ss, i + 1, level0, m)
      ensures forall j :: LastLoad(ss, j, i + 1) && ss[j].SpawnerSave? ==>
                ss[j].spawner.RestoredFrom(LevelAt(ss, j, level0, m), next, m)
      ensures LastInventoryBefore(ss, i + 1) >= 0 ==>
                ss[LastInventoryBefore(ss, i + 1)].inventory.Levels() ==
                LoadedLevels(m, |ss[LastInventoryBefore(ss, i + 1)].inventory.cells|)
    {
      ghost var k := LastInventoryBefore(ss, i);
      ghost var other: Inventory? := if k >= 0 then ss[k].inventory else null;
      LoadSystemData(ss[i], prefs, next, other);
      forall j | LastLoad(ss, j, i + 1) && ss[j].SpawnerSave?
        ensures ss[j].spawner.RestoredFrom(LevelAt(ss, j, level0, m), next, m)
      {
        if j < i {
          assert LastLoad(ss, j, i) && ss[i] != ss[j];
        }
      }
    }

    /** Every registered system loads in registry order. */
    method LoadAllData(prefs: PlayerPrefs, next: (int, int, int) -> int)
      requires forall i :: 0 <= i < |saveSystems| ==> Loadable(saveSystems[i])
      modifies LoadFrame(game, saveSystems)
      ensures EconomySave in saveSystems ==> (game.level, game.money) == LoadEconomy(prefs.entries)
      ensures forall i :: 0 <= i < |saveSystems| && saveSystems[i].SpawnerSave? ==>
                saveSystems[i].spawner.Valid() && saveSystems[i].spawner.generated
      ensures forall i :: LastLoad(saveSystems, i, |saveSystems|) && saveSystems[i].SpawnerSave? ==>
                saveSystems[i].spawner.RestoredFrom(LevelAt(saveSystems, i, old(game.level), prefs.entries), next, prefs.entries)
      ensures forall k :: LastInventory(saveSystems, k) ==>
                saveSystems[k].inventory.Levels() == LoadedLevels(prefs.entries, |saveSystems[k].inventory.cells|)
    {
      var ss := saveSystems;
      OutsideLoadFrame(game, ss, this, prefs);
      ghost var entries := prefs.entries;
      ghost var level0 := game.level;
      for i := 0 to |ss|
        invariant prefs.entries == entries
        invariant EconomyBefore(ss, i) ==> (game.level, game.money) == LoadEconomy(entries)
        invariant game.level == LevelAt(ss, i, level0, entries)
        invariant forall j :: LastLoad(ss, j, i) && ss[j].SpawnerSave? ==>
                    ss[j].spawner.RestoredFrom(LevelAt(ss, j, level0, entries), next, entries)
        invariant LastInventoryBefore(ss, i) >= 0 ==>
                    ss[LastInventoryBefore(ss, i)].inventory.Levels() ==
                    LoadedLevels(entries, |ss[LastInventoryBefore(ss, i)].inventory.cells|)
      {
        TargetsInFrame(game, ss, i);
        LoadEntry(ss, i, prefs, next, level0, entries);
      }
      assert saveSystems == ss;
      EconomyBeforeAll(ss);
      forall j | 0 <= j < |ss| && ss[j].SpawnerSave?
        ensures ss[j].spawner.Valid() && ss[j].spawner.generated
      {
        var k := LastOccurrence(ss, j, |ss|);
      }
      forall k | LastInventory(ss, k)
        ensures k == LastInventoryBefore(ss, |ss|)
      {
        LastInventoryFrom(ss, k, |ss|);
      }
    }

    /** Every registered system saves in registry order, then the store is flushed; `data`
        is what each one saved. */
    method SaveAllData(prefs: PlayerPrefs) returns (ghost data: seq<SystemData>)
      modifies prefs
      ensures |data| == |saveSystems| && forall i :: 0 <= i < |data| ==> data[i] == old(DataOf(game, saveSystems[i]))
      ensures prefs.entries == SaveAll(old(prefs.entries), data)
      ensures prefs.flushes == old(prefs.flushes) + SystemFlushes(data) + 1
    {
      var ss := saveSystems;
      data := [];
      for i := 0 to |ss|
        invariant |data| == i
        invariant forall j :: 0 <= j < i ==> data[j] == old(DataOf(game, ss[j]))
        invariant forall j :: 0 <= j < |ss| ==> DataOf(game, ss[j]) == old(DataOf(game, ss[j]))
        invariant prefs.entries == SaveAll(old(prefs.entries), data)
        invariant prefs.flushes == old(prefs.flushes) + SystemFlushes(data)
      {
        ghost var d := DataOf(game, ss[i]);
        SaveSystemData(ss[i], prefs, ss);
        data := data + [d];
        assert data[..i] == data[..|data| - 1];
      }
      prefs.Save();
    }

    /** The save on quitting. */
    method OnApplicationQuit(prefs: PlayerPrefs) returns (ghost data: seq<SystemData>)
      modifies prefs
      ensures |data| == |saveSystems| && forall i :: 0 <= i < |data| ==> data[i] == old(DataOf(game, saveSystems[i]))
      ensures prefs.entries == SaveAll(old(prefs.entries), data)
      ensures prefs.flushes == old(prefs.flushes) + SystemFlushes(data) + 1
    {
      data := SaveAllData(prefs);
    }

    /** Going to the background saves; coming back does nothing. */
    method OnApplicationPause(pauseStatus: bool, prefs: PlayerPrefs) returns (ghost data: seq<SystemData>)
      modifies prefs
      ensures !pauseStatus ==> data == [] && unchanged(prefs)
      ensures pauseStatus ==>
                |data| == |saveSystems| && (forall i :: 0 <= i < |data| ==> data[i] == old(DataOf(game, saveSystems[i]))) &&
                prefs.entries == SaveAll(old(prefs.entries), data) &&
                prefs.flushes == old(prefs.flushes) + SystemFlushes(data) + 1
    {
      data := [];
      if pauseStatus {
        data := SaveAllData(prefs);
      }
    }
  }
}

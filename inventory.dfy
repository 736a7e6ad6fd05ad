/** The grid of cells and the pickaxes bought into it: prices, purchases, dropping every
    pickaxe at once, and saving the level held in each cell. */
module Inventories {
  import opened Collections
  import opened Prefs
  import opened Economy
  import opened Pickaxes
  import opened Cells

  function Pow2(n: nat): (r: nat)
    ensures r >= 1
  {
    if n == 0 then 1 else 2 * Pow2(n - 1)
  }

  /** What a cell adds to the price: 2^level for a pickaxe, nothing for an empty cell (-1). */
  function Weight(level: int): (w: nat)
    ensures w == 0 <==> level < 0
  {
    if level < 0 then 0 else Pow2(level)
  }

  /** The price of the next pickaxe given the level in each cell: every pickaxe counts as
      the 2^level level-0 pickaxes merged into it. */
  function Cost(levels: seq<int>): (c: nat)
    ensures c >= Occupied(levels)
  {
    if levels == [] then 0 else Cost(levels[..|levels| - 1]) + Weight(levels[|levels| - 1])
  }

  /** Changing one cell's level changes the price by the difference of the two weights. */
  lemma {:induction false} CostUpdate(levels: seq<int>, i: nat, v: int)
    requires i < |levels|
    ensures Cost(levels[i := v]) == Cost(levels) - Weight(levels[i]) + Weight(v)
  {
    var n := |levels| - 1;
    var updated := levels[i := v];
    if i == n {
      assert updated[..n] == levels[..n];
    } else {
      assert updated[..n] == levels[..n][i := v];
      CostUpdate(levels[..n], i, v);
    }
  }

  /** The price is zero exactly when every cell is empty: the first pickaxe is free. */
  lemma {:induction false} CostZeroIffEmpty(levels: seq<int>)
    ensures Cost(levels) == 0 <==> forall i :: 0 <= i < |levels| ==> levels[i] < 0
  {
    if levels != [] {
      var n := |levels| - 1;
      CostZeroIffEmpty(levels[..n]);
      assert forall i :: 0 <= i < n ==> levels[..n][i] == levels[i];
    }
  }

  /** A level-0 pickaxe put in an empty cell raises the price by one. */
  lemma AddRaisesCost(levels: seq<int>, k: nat)
    requires k < |levels| && levels[k] == -1
    ensures Cost(levels[k := 0]) == Cost(levels) + 1
  {
    CostUpdate(levels, k, 0);
  }

  /** Dragging a pickaxe out of cell i and merging it into the pickaxe of the same level in
      cell j leaves the price unchanged: 2^l + 2^l = 2^(l + 1). */
  lemma MergeKeepsCost(levels: seq<int>, i: nat, j: nat)
    requires i < |levels| && j < |levels| && i != j
    requires levels[i] >= 0 && levels[j] == levels[i]
    ensures Cost(levels[i := -1][j := levels[j] + 1]) == Cost(levels)
  {
    CostUpdate(levels, i, -1);
    CostUpdate(levels[i := -1], j, levels[j] + 1);
  }

  /** The number of seated pickaxes given the level in each cell. */
  function Occupied(levels: seq<int>): nat
  {
    if levels == [] then 0 else Occupied(levels[..|levels| - 1]) + (if levels[|levels| - 1] >= 0 then 1 else 0)
  }

  /** Changing one cell's level changes the count only when the cell is emptied or filled. */
  lemma {:induction false} OccupiedUpdate(levels: seq<int>, i: nat, v: int)
    requires i < |levels|
    ensures Occupied(levels[i := v]) == Occupied(levels) - (if levels[i] >= 0 then 1 else 0) + (if v >= 0 then 1 else 0)
  {
    var n := |levels| - 1;
    var updated := levels[i := v];
    if i == n {
      assert updated[..n] == levels[..n];
    } else {
      assert updated[..n] == levels[..n][i := v];
      OccupiedUpdate(levels[..n], i, v);
    }
  }

  /** A successful merge leaves one pickaxe fewer in the grid. */
  lemma MergeDropsCount(levels: seq<int>, i: nat, j: nat)
    requires i < |levels| && j < |levels| && i != j
    requires levels[i] >= 0 && levels[j] == levels[i]
    ensures Occupied(levels[i := -1][j := levels[j] + 1]) == Occupied(levels) - 1
  {
    OccupiedUpdate(levels, i, -1);
    OccupiedUpdate(levels[i := -1], j, levels[j] + 1);
  }

  /** The grid after the pickaxe in cell i is dropped on cell j: moved into an empty cell,
      merged one level up into a pickaxe of its own level when the upgrade succeeds, and
      otherwise returned to cell i. */
  function DropLevels(levels: seq<int>, i: nat, j: nat, success: bool): (r: seq<int>)
    requires i < |levels| && j < |levels| && i != j && levels[i] >= 0
    ensures |r| == |levels| && forall k :: 0 <= k < |levels| && k != i && k != j ==> r[k] == levels[k]
    ensures r[i] == -1 <==> levels[j] == -1 || (levels[j] == levels[i] && success)
    ensures r[j] == if levels[j] == -1 then levels[i] else if levels[j] == levels[i] && success then levels[j] + 1 else levels[j]
  {
    if levels[j] == -1 then levels[i := -1][j := levels[i]]
    else if levels[j] == levels[i] && success then levels[i := -1][j := levels[j] + 1]
    else levels
  }

  /** A move or a merge leaves the price of the next pickaxe unchanged; a merge leaves one
      pickaxe fewer, a move or a return the same number. */
  lemma DropCounts(levels: seq<int>, i: nat, j: nat, success: bool)
    requires i < |levels| && j < |levels| && i != j && levels[i] >= 0
    ensures levels[j] == -1 || (levels[j] == levels[i] && success) ==> Cost(DropLevels(levels, i, j, success)) == Cost(levels)
    ensures Occupied(DropLevels(levels, i, j, success)) == Occupied(levels) - (if levels[j] == levels[i] && success then 1 else 0)
  {
    if levels[j] == -1 {
      CostUpdate(levels, i, -1);
      CostUpdate(levels[i := -1], j, levels[i]);
      OccupiedUpdate(levels, i, -1);
      OccupiedUpdate(levels[i := -1], j, levels[i]);
    } else if levels[j] == levels[i] && success {
      MergeKeepsCost(levels, i, j);
      MergeDropsCount(levels, i, j);
    }
  }

  /** -1 for an empty cell, otherwise the level of its pickaxe. */
  function SlotLevel(c: Cell): (l: int)
    reads c, c.currentPickaxe
    ensures l >= -1 && (l == -1 <==> c.currentPickaxe == null)
  {
    if c.currentPickaxe == null then -1 else c.currentPickaxe.level
  }

  function PickaxesIn(cs: seq<Cell>): set<Pickaxe>
    reads cs
  {
    set i | 0 <= i < |cs| && cs[i].currentPickaxe != null :: cs[i].currentPickaxe
  }

  function LevelsOf(cs: seq<Cell>): (ls: seq<int>)
    reads cs, PickaxesIn(cs)
    ensures |ls| == |cs| && forall i :: 0 <= i < |cs| ==> ls[i] == SlotLevel(cs[i])
  {
    seq(|cs|, i requires 0 <= i < |cs| reads cs, PickaxesIn(cs) => SlotLevel(cs[i]))
  }

  /** The seated pickaxes in grid order. */
  function SeatedList(cs: seq<Cell>): (ps: seq<Pickaxe>)
    reads cs
    ensures |ps| <= |cs|
  {
    if cs == [] then []
    else
      var last := cs[|cs| - 1];
      SeatedList(cs[..|cs| - 1]) + (if last.currentPickaxe != null then [last.currentPickaxe] else [])
  }

  /** The non-null entries, in order. */
  function NonNull(ps: seq<Pickaxe?>): (r: seq<Pickaxe>)
    ensures |r| <= |ps|
  {
    if ps == [] then []
    else NonNull(ps[..|ps| - 1]) + (if ps[|ps| - 1] != null then [ps[|ps| - 1]] else [])
  }

  /** The seated list of cells holding ps is the non-null part of ps. */
  lemma {:induction false} SeatedListOf(cs: seq<Cell>, ps: seq<Pickaxe?>)
    requires |cs| == |ps| && forall j :: 0 <= j < |cs| ==> cs[j].currentPickaxe == ps[j]
    ensures SeatedList(cs) == NonNull(ps)
  {
    if cs != [] {
      var n := |cs| - 1;
      SeatedListOf(cs[..n], ps[..n]);
    }
  }

  /** An occupied cell's pickaxe is in the list. */
  lemma {:induction false} SeatedListHas(cs: seq<Cell>, c: Cell)
    requires c in cs && c.currentPickaxe != null
    ensures c.currentPickaxe in SeatedList(cs)
  {
    var n := |cs| - 1;
    if cs[n] != c {
      assert c in cs[..n];
      SeatedListHas(cs[..n], c);
    }
  }

  /** Every pickaxe in the list is seated in one of the cells. */
  lemma {:induction false} SeatedListIn(cs: seq<Cell>, p: Pickaxe)
    requires p in SeatedList(cs)
    ensures exists i :: 0 <= i < |cs| && cs[i].currentPickaxe == p
  {
    var n := |cs| - 1;
    if p != cs[n].currentPickaxe {
      SeatedListIn(cs[..n], p);
      var i :| 0 <= i < n && cs[..n][i].currentPickaxe == p;
      assert cs[i] == cs[..n][i];
    }
  }

  /** StartAttack on each pickaxe in turn; a pickaxe listed twice is started once. */
  method StartEach(ps: seq<Pickaxe>)
    modifies set p | p in ps
    ensures forall p :: p in ps ==> p.State() == Started(old(p.State()))
  {
    for i := 0 to |ps|
      invariant forall p :: p in ps ==> p.State() == if p in ps[..i] then Started(old(p.State())) else old(p.State())
    {
      assert forall p :: p in ps[..i + 1] <==> p in ps[..i] || p == ps[i];
      StartedIdempotent(old(ps[i].State()));
      ps[i].StartAttack();
    }
    assert ps[..|ps|] == ps;
  }

  /** The cells, in grid order, that are occupied (or empty). */
  function CellsWhere(cs: seq<Cell>, occupied: bool): (r: seq<Cell>)
    reads cs
    ensures |r| <= |cs|
  {
    if cs == [] then []
    else
      var last := cs[|cs| - 1];
      CellsWhere(cs[..|cs| - 1], occupied) + (if (last.currentPickaxe != null) == occupied then [last] else [])
  }

  /** CellsWhere keeps exactly the cells in the asked state. */
  lemma {:induction false} CellsWhereMembers(cs: seq<Cell>, occupied: bool)
    ensures forall k :: 0 <= k < |CellsWhere(cs, occupied)| ==>
              CellsWhere(cs, occupied)[k] in cs && (CellsWhere(cs, occupied)[k].currentPickaxe != null) == occupied
    ensures forall i :: 0 <= i < |cs| && (cs[i].currentPickaxe != null) == occupied ==> cs[i] in CellsWhere(cs, occupied)
  {
    if cs != [] {
      CellsWhereMembers(cs[..|cs| - 1], occupied);
      forall i | 0 <= i < |cs| - 1
        ensures cs[i] == cs[..|cs| - 1][i]
      {
      }
    }
  }

  /** Every cell is either empty or occupied. */
  lemma {:induction false} CellsPartition(cs: seq<Cell>)
    ensures |CellsWhere(cs, true)| + |CellsWhere(cs, false)| == |cs|
  {
    if cs != [] {
      CellsPartition(cs[..|cs| - 1]);
    }
  }

  /** The levels a load restores from the store: the saved level where it is not negative,
      an empty cell otherwise. */
  function LoadedLevels(m: map<string, int>, n: nat): (ls: seq<int>)
    ensures |ls| == n
    ensures forall i :: 0 <= i < n ==> ls[i] >= -1
  {
    seq(n, i requires 0 <= i < n => if Lookup(m, CellKey(i), -1) >= 0 then Lookup(m, CellKey(i), -1) else -1)
  }

  /** Loading what a save wrote gives back every cell's level. */
  lemma CellsRoundTrip(m: map<string, int>, levels: seq<int>)
    requires forall i :: 0 <= i < |levels| ==> levels[i] >= -1
    ensures LoadedLevels(WriteIndexed(m, "cell", levels), |levels|) == levels
  {
    var loaded := LoadedLevels(WriteIndexed(m, "cell", levels), |levels|);
    forall i | 0 <= i < |levels|
      ensures loaded[i] == levels[i]
    {
      WriteIndexedAt(m, "cell", levels, i);
    }
  }

  class Inventory {
    const cells: seq<Cell>
    /** The durability and damage of the pickaxe prefab. */
    const prefabDurability: int
    const prefabDamage: int
    var pickaxes: seq<Pickaxe>

    function Held(): set<Pickaxe>
      reads cells
    {
      PickaxesIn(cells)
    }

    /** The level held in each cell, -1 for an empty one. */
    ghost function Levels(): seq<int>
      reads cells, Held()
    {
      LevelsOf(cells)
    }

    /** The prefab's durability is not negative and the cells are distinct. */
    ghost predicate Valid()
    {
      prefabDurability >= 0 && NoDuplicates(cells)
    }

    /** Some seated pickaxe is falling. */
    ghost predicate AnyFalling()
      reads cells, Held()
    {
      exists i :: 0 <= i < |cells| && cells[i].currentPickaxe != null && cells[i].currentPickaxe.isFalling
    }

    /** A pickaxe as the prefab makes it, set to the given level, at rest. */
    ghost predicate FromPrefab(p: Pickaxe, level: int)
      reads p
    {
      p.level == level && AtRest(p.State()) && p.maxDurability == prefabDurability && p.damage == prefabDamage
    }

    constructor (cells: seq<Cell>, prefabDurability: int, prefabDamage: int)
      requires NoDuplicates(cells) && prefabDurability >= 0
      requires forall i :: 0 <= i < |cells| ==> cells[i].currentPickaxe == null
      ensures this.cells == cells && this.prefabDurability == prefabDurability && this.prefabDamage == prefabDamage
      ensures Valid() && pickaxes == []
    {
      this.cells := cells;
      this.prefabDurability := prefabDurability;
      this.prefabDamage := prefabDamage;
      pickaxes := [];
    }

    method GetEmptyCells() returns (r: seq<Cell>)
      ensures r == CellsWhere(cells, false)
    {
      r := [];
      for i := 0 to |cells|
        invariant r == CellsWhere(cells[..i], false)
      {
        assert cells[..i + 1][..i] == cells[..i];
        var has := cells[i].HasPickaxe();
        if !has {
          r := r + [cells[i]];
        }
      }
      assert cells[..|cells|] == cells;
    }

    method GetOccupiedCells() returns (r: seq<Cell>)
      ensures r == CellsWhere(cells, true)
    {
      r := [];
      for i := 0 to |cells|
        invariant r == CellsWhere(cells[..i], true)
      {
        assert cells[..i + 1][..i] == cells[..i];
        var has := cells[i].HasPickaxe();
        if has {
          r := r + [cells[i]];
        }
      }
      assert cells[..|cells|] == cells;
    }

    /** The sum of 2^level over the seated pickaxes. */
    method GetPickaxeCount() returns (count: nat)
      ensures count == Cost(Levels())
    {
      ghost var levels := Levels();
      count := 0;
      for i := 0 to |cells|
        invariant count == Cost(levels[..i])
      {
        assert levels[..i + 1][..i] == levels[..i];
        var pickaxe := cells[i].currentPickaxe;
        if pickaxe != null {
          count := count + Pow2(pickaxe.level);
        }
      }
      assert levels[..|cells|] == levels;
    }

    method GetNextCostOfPickaxe() returns (cost: nat)
      ensures cost == Cost(Levels())
    {
      cost := GetPickaxeCount();
    }

    /** Instantiates the prefab in the cell, sets its level, seats it and lists it. */
    method SeatNewPickaxe(cell: Cell, level: nat) returns (p: Pickaxe)
      requires Valid()
      modifies this`pickaxes, cell`currentPickaxe
      ensures fresh(p) && cell.currentPickaxe == p && FromPrefab(p, level)
      ensures pickaxes == old(pickaxes) + [p]
    {
      p := new Pickaxe(prefabDurability, prefabDamage, level);
      cell.SetPickaxe(p);
      pickaxes := pickaxes + [p];
    }

    /** Seats a new pickaxe of the given level in an empty cell chosen at random; refused
        when every cell is occupied. */
    method AddPickaxe(level: nat) returns (added: bool)
      requires Valid()
      modifies this`pickaxes, cells
      ensures added <==> -1 in old(Levels())
      ensures !added ==>
                pickaxes == old(pickaxes) &&
                (forall i :: 0 <= i < |cells| ==> cells[i].currentPickaxe == old(cells[i].currentPickaxe))
      ensures added ==>
                exists k :: 0 <= k < |cells| && old(Levels())[k] == -1 && Levels() == old(Levels())[k := level] &&
                  cells[k].currentPickaxe != null && fresh(cells[k].currentPickaxe) &&
                  FromPrefab(cells[k].currentPickaxe, level) &&
                  pickaxes == old(pickaxes) + [cells[k].currentPickaxe] &&
                  (forall j :: 0 <= j < |cells| && j != k ==> cells[j].currentPickaxe == old(cells[j].currentPickaxe))
    {
      ghost var levels := Levels();
      var emptyCells := GetEmptyCells();
      CellsWhereMembers(cells, false);
      if |emptyCells| == 0 {
        forall i | 0 <= i < |cells|
          ensures levels[i] != -1
        {
          assert cells[i] !in emptyCells;
        }
        return false;
      }
      // Random.Range(0, emptyCells.Count): any of the empty cells
      var r :| 0 <= r < |emptyCells|;
      var randomCell := emptyCells[r];
      ghost var k := FirstIndex(cells, randomCell);
      var newPickaxe := SeatNewPickaxe(randomCell, level);
      added := true;
      forall j | 0 <= j < |cells| && j != k
        ensures cells[j] != randomCell
      {
      }
      assert Levels() == levels[k := level];
    }

    /** Writes every cell's level (-1 for an empty cell) under cell0, cell1, ..., then flushes. */
    method SaveData(prefs: PlayerPrefs)
      modifies prefs
      ensures prefs.entries == WriteIndexed(old(prefs.entries), "cell", Levels())
      ensures prefs.flushes == old(prefs.flushes) + 1
    {
      ghost var levels := Levels();
      ghost var m := prefs.entries;
      for i := 0 to |cells|
        invariant prefs.entries == WriteIndexed(m, "cell", levels[..i])
        invariant prefs.flushes == old(prefs.flushes)
      {
        SaveCell(i, prefs, levels, m);
      }
      assert levels[..|cells|] == levels;
      prefs.Save();
      assert Levels() == levels;
    }

    /** One pass of that loop: writes cell i's level, extending the indexed writes by one. */
    method SaveCell(i: nat, prefs: PlayerPrefs, ghost levels: seq<int>, ghost m: map<string, int>)
      requires i < |cells| && levels == Levels()
      requires prefs.entries == WriteIndexed(m, "cell", levels[..i])
      modifies prefs`entries
      ensures prefs.entries == WriteIndexed(m, "cell", levels[..i + 1])
    {
      var pickaxe := cells[i].currentPickaxe;
      if pickaxe != null {
        prefs.SetInt(CellKey(i), pickaxe.level);
      } else {
        prefs.SetInt(CellKey(i), -1);
      }
      assert levels[..i + 1][..i] == levels[..i];
    }

    /** Empties the grid, then seats a new pickaxe wherever the store holds a level of zero
        or more; the list names them in grid order. */
    method LoadData(prefs: PlayerPrefs)
      requires Valid()
      modifies this`pickaxes, cells
      ensures Levels() == LoadedLevels(prefs.entries, |cells|)
      ensures pickaxes == SeatedList(cells)
      ensures forall i :: 0 <= i < |cells| && cells[i].currentPickaxe != null ==>
                fresh(cells[i].currentPickaxe) && FromPrefab(cells[i].currentPickaxe, cells[i].currentPickaxe.level)
    {
      ClearInventory();
      ghost var placed := SeatSaved(prefs);
      SeatedListOf(cells, placed);
      assert Levels() == LoadedLevels(prefs.entries, |cells|);
    }

    /** The loop of LoadData over an empty grid; `placed` is what each cell ends up holding. */
    method SeatSaved(prefs: PlayerPrefs) returns (ghost placed: seq<Pickaxe?>)
      requires Valid() && pickaxes == []
      requires forall i :: 0 <= i < |cells| ==> cells[i].currentPickaxe == null
      modifies this`pickaxes, cells
      ensures |placed| == |cells| && forall j :: 0 <= j < |cells| ==> cells[j].currentPickaxe == placed[j]
      ensures forall j :: 0 <= j < |cells| ==> (placed[j] == null <==> LoadedLevels(prefs.entries, |cells|)[j] == -1)
      ensures forall j :: 0 <= j < |cells| && placed[j] != null ==>
                fresh(placed[j]) && FromPrefab(placed[j], LoadedLevels(prefs.entries, |cells|)[j])
      ensures pickaxes == NonNull(placed)
    {
      ghost var loaded := LoadedLevels(prefs.entries, |cells|);
      placed := [];
      for i := 0 to |cells|
        invariant |placed| == i
        invariant forall j :: 0 <= j < |cells| ==> cells[j].currentPickaxe == if j < i then placed[j] else null
        invariant forall j :: 0 <= j < i ==> (placed[j] == null <==> loaded[j] == -1)
        invariant forall j :: 0 <= j < i && placed[j] != null ==> fresh(placed[j]) && FromPrefab(placed[j], loaded[j])
        invariant pickaxes == NonNull(placed)
      {
        ghost var before := placed;
        ghost var p := SeatSavedAt(i, prefs);
        placed := placed + [p];
        assert placed[..|placed| - 1] == before;
      }
    }

    /** One step of that loop: seats the level saved for cell i, if any. */
    method SeatSavedAt(i: nat, prefs: PlayerPrefs) returns (ghost p: Pickaxe?)
      requires Valid() && i < |cells|
      modifies this`pickaxes, cells[i]
      ensures cells[i].currentPickaxe == if p == null then old(cells[i].currentPickaxe) else p
      ensures forall j :: 0 <= j < |cells| && j != i ==> cells[j].currentPickaxe == old(cells[j].currentPickaxe)
      ensures (p == null <==> LoadedLevels(prefs.entries, |cells|)[i] == -1)
      ensures p != null ==> fresh(p) && FromPrefab(p, LoadedLevels(prefs.entries, |cells|)[i])
      ensures pickaxes == old(pickaxes) + if p != null then [p] else []
    {
      p := null;
      var saved := prefs.GetInt(CellKey(i), -1);
      if saved >= 0 {
        p := SeatNewPickaxe(cells[i], saved);
      }
    }

    /** Destroys every seated pickaxe (a destroyed pickaxe reads as no pickaxe) and forgets the list. */
    method ClearInventory()
      requires Valid()
      modifies this`pickaxes, cells
      ensures pickaxes == []
      ensures forall i :: 0 <= i < |cells| ==> cells[i].currentPickaxe == null
    {
      for i := 0 to |cells|
        invariant forall j :: 0 <= j < i ==> cells[j].currentPickaxe == null
      {
        cells[i].SetPickaxe(null);
      }
      pickaxes := [];
    }

    /** The scan that both DropAll and BuyPickaxe start with: is any seated pickaxe falling? */
    method SomePickaxeFalling() returns (falling: bool)
      ensures falling == AnyFalling()
    {
      var occupied := GetOccupiedCells();
      CellsWhereMembers(cells, true);
      for i := 0 to |occupied|
        invariant forall j :: 0 <= j < i ==> !occupied[j].currentPickaxe.isFalling
      {
        assert occupied[i] in occupied;
        if occupied[i].currentPickaxe.isFalling {
          return true;
        }
      }
      forall i | 0 <= i < |cells| && cells[i].currentPickaxe != null
        ensures !cells[i].currentPickaxe.isFalling
      {
        assert cells[i] in occupied;
      }
      return false;
    }

    /** Starts the attack of every seated pickaxe, unless one of them is still falling. */
    method DropAll()
      requires Valid()
      modifies Held()
      ensures old(AnyFalling()) ==>
                forall i :: 0 <= i < |cells| && cells[i].currentPickaxe != null ==>
                  cells[i].currentPickaxe.State() == old(cells[i].currentPickaxe.State())
      ensures !old(AnyFalling()) ==>
                forall i :: 0 <= i < |cells| && cells[i].currentPickaxe != null ==>
                  cells[i].currentPickaxe.State() == Started(old(cells[i].currentPickaxe.State()))
    {
      var falling := SomePickaxeFalling();
      if falling {
        return;
      }
      StartSeated();
    }

    /** The loop of DropAll: StartAttack on the pickaxe of every occupied cell. */
    method StartSeated()
      requires Valid()
      modifies Held()
      ensures forall i :: 0 <= i < |cells| && cells[i].currentPickaxe != null ==>
                cells[i].currentPickaxe.State() == Started(old(cells[i].currentPickaxe.State()))
    {
      var occupied := GetOccupiedCells();
      CellsWhereMembers(cells, true);
      var ps := SeatedList(occupied);
      forall k | 0 <= k < |cells| && cells[k].currentPickaxe != null
        ensures cells[k].currentPickaxe in ps
      {
        SeatedListHas(occupied, cells[k]);
      }
      forall p | p in ps
        ensures p in Held()
      {
        SeatedListIn(occupied, p);
        var i :| 0 <= i < |occupied| && occupied[i].currentPickaxe == p;
        assert occupied[i] in cells;
      }
      StartEach(ps);
    }

    /** Buys a level-0 pickaxe for the current price, unless a pickaxe is falling. The money
        is spent even when every cell is occupied, and then nothing is added. */
    method BuyPickaxe(gm: GameManager)
      requires Valid()
      modifies this`pickaxes, cells, gm`money
      ensures old(AnyFalling()) || old(gm.money) < Cost(old(Levels())) ==>
                gm.money == old(gm.money) && pickaxes == old(pickaxes) &&
                (forall i :: 0 <= i < |cells| ==> cells[i].currentPickaxe == old(cells[i].currentPickaxe))
      ensures !old(AnyFalling()) && old(gm.money) >= Cost(old(Levels())) ==>
                && gm.money == old(gm.money) - Cost(old(Levels()))
                && (-1 !in old(Levels()) ==>
                      Levels() == old(Levels()) && pickaxes == old(pickaxes) &&
                      forall i :: 0 <= i < |cells| ==> cells[i].currentPickaxe == old(cells[i].currentPickaxe))
                && (-1 in old(Levels()) ==>
                      Cost(Levels()) == Cost(old(Levels())) + 1 &&
                      exists k :: 0 <= k < |cells| && old(Levels())[k] == -1 && Levels() == old(Levels())[k := 0] &&
                        cells[k].currentPickaxe != null && fresh(cells[k].currentPickaxe) &&
                        FromPrefab(cells[k].currentPickaxe, 0) &&
                        pickaxes == old(pickaxes) + [cells[k].currentPickaxe] &&
                        (forall j :: 0 <= j < |cells| && j != k ==> cells[j].currentPickaxe == old(cells[j].currentPickaxe)))
    {
      ghost var levels := Levels();
      ghost var wasFalling := AnyFalling();
      var falling := SomePickaxeFalling();
      assert Levels() == levels && AnyFalling() == wasFalling;
      if falling {
        return;
      }
      var cost := GetNextCostOfPickaxe();
      assert Levels() == levels;
      ghost var seated := pickaxes;
      var ok := gm.SpendMoney(cost);
      assert Levels() == levels && pickaxes == seated;
      if ok {
        AddBought();
      }
    }

    /** The purchase once it is paid for: a level-0 pickaxe in an empty cell if there is
        one, which raises the next price by one; with a full grid nothing changes. */
    method AddBought()
      requires Valid()
      modifies this`pickaxes, cells
      ensures -1 !in old(Levels()) ==>
                Levels() == old(Levels()) && pickaxes == old(pickaxes) &&
                forall i :: 0 <= i < |cells| ==> cells[i].currentPickaxe == old(cells[i].currentPickaxe)
      ensures -1 in old(Levels()) ==>
                Cost(Levels()) == Cost(old(Levels())) + 1 &&
                exists k :: 0 <= k < |cells| && old(Levels())[k] == -1 && Levels() == old(Levels())[k := 0] &&
                  cells[k].currentPickaxe != null && fresh(cells[k].currentPickaxe) &&
                  FromPrefab(cells[k].currentPickaxe, 0) &&
                  pickaxes == old(pickaxes) + [cells[k].currentPickaxe] &&
                  (forall j :: 0 <= j < |cells| && j != k ==> cells[j].currentPickaxe == old(cells[j].currentPickaxe))
    {
      ghost var levels := Levels();
      var added := AddPickaxe(0);
      if added {
        ghost var k :| 0 <= k < |cells| && levels[k] == -1 && Levels() == levels[k := 0];
        AddRaisesCost(levels, k);
      } else {
        assert Levels() == levels;
      }
    }

    /** No pickaxe sits in two cells. */
    ghost predicate SeatedOnce()
      reads cells
    {
      forall a, b :: 0 <= a < |cells| && 0 <= b < |cells| && a != b && cells[a].currentPickaxe != null ==>
        cells[a].currentPickaxe != cells[b].currentPickaxe
    }

    /** A whole drag gesture: a left press on cell i, then a left release over cell j alone.
        The grid becomes DropLevels of the old one; the result is the pickaxe that the drop
        reports through onDestroyPickaxe (whose handler is UpdatePickaxes), the one merged
        away. */
    method DragAndDrop(i: nat, j: nat, drag: DragSession, success: bool, extraDurability: int, extraDamage: int)
      returns (destroyed: Pickaxe?)
      requires Valid() && SeatedOnce() && drag.dragged == null
      requires i < |cells| && j < |cells| && i != j && cells[i].currentPickaxe != null
      modifies cells, Held(), drag
      ensures Levels() == DropLevels(old(Levels()), i, j, success)
      ensures destroyed == (if old(Levels())[j] == old(Levels())[i] && success then old(cells[i].currentPickaxe) else null)
      ensures drag.dragged == null && drag.startCell == null
    {
      ghost var before := Levels();
      var start, target := cells[i], cells[j];
      ghost var p, q := start.currentPickaxe, target.currentPickaxe;
      destroyed := Gesture(start, target, drag, success, extraDurability, extraDamage);
      ghost var expected := DropLevels(before, i, j, success);
      ghost var after := Levels();
      forall k | 0 <= k < |cells| ensures after[k] == expected[k] {
        if k != i && k != j {
          var c := cells[k];
          assert c != start && c != target;
          if old(c.currentPickaxe) != null {
            assert old(c.currentPickaxe) != p && old(c.currentPickaxe) != q;
            assert c.currentPickaxe.level == old(c.currentPickaxe.level);
          }
          assert SlotLevel(c) == before[k];
        }
      }
    }

    /** The onDestroyPickaxe handler: the destroyed pickaxe leaves the list. */
    method UpdatePickaxes(pickaxe: Pickaxe)
      modifies this`pickaxes
      ensures pickaxes == RemoveFirst(old(pickaxes), pickaxe)
      ensures NoDuplicates(old(pickaxes)) ==>
                NoDuplicates(pickaxes) && forall q :: q in pickaxes <==> q in old(pickaxes) && q != pickaxe
    {
      if NoDuplicates(pickaxes) {
        RemoveFirstNoDuplicates(pickaxes, pickaxe);
      }
      pickaxes := RemoveFirst(pickaxes, pickaxe);
    }
  }
}

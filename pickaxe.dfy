/** The pickaxe: its durability and damage, the fall / strike / return cycle that the
    game runs as coroutines (here: one method per resumption of a coroutine), and the
    choice of the block it collides with. */
module Pickaxes {
  import opened Collections
  import opened Economy
  import opened Blocks

  /** Where HitBlockRoutine is suspended: not running; in the wait before its first strike;
      in the wait inside its bounce loop, after the loop test and before a strike; or in
      the wait at the end of a loop pass, before the loop test runs again. */
  datatype HitStage = NoHit | BeforeFirstStrike | BeforeLoopStrike | AtLoopHead

  /** Everything a pickaxe holds, the running coroutines included. */
  datatype PickaxeState = PickaxeState(
    maxDurability: int,
    damage: int,
    durability: int,
    isFalling: bool,
    isBouncing: bool,
    target: Block?,
    level: nat,
    fallRoutine: bool,      // FallingRoutine is still running
    hit: HitStage,          // HitBlockRoutine, nested in FallingRoutine
    returnRoutine: bool)    // a ReturnToStartPosition is under way

  /** The invariant the coroutines keep: durability within [0, max]; a falling pickaxe has
      durability left; a strike in progress has a target; a fall whose flag was cleared
      is waiting for a return to finish. */
  ghost predicate Inv(s: PickaxeState)
  {
    && 0 <= s.durability <= s.maxDurability
    && (s.isFalling ==> s.fallRoutine && s.durability > 0)
    && (s.hit != NoHit ==> s.fallRoutine && s.target != null && s.durability > 0)
    && (s.isBouncing ==> s.hit != NoHit)
    && (s.fallRoutine && !s.isFalling ==> s.returnRoutine)
  }

  /** Seated in its cell at full durability with nothing running. */
  predicate AtRest(s: PickaxeState)
  {
    && s.durability == s.maxDurability
    && !s.isFalling && !s.isBouncing && s.target == null
    && !s.fallRoutine && s.hit == NoHit && !s.returnRoutine
  }

  /** ResetPickaxe: stops every coroutine and restores full durability. */
  function Reset(s: PickaxeState): (r: PickaxeState)
    ensures AtRest(r)
    ensures r.maxDurability == s.maxDurability && r.damage == s.damage && r.level == s.level
    ensures s.maxDurability >= 0 ==> Inv(r)
  {
    PickaxeState(s.maxDurability, s.damage, s.maxDurability, false, false, null, s.level, false, NoHit, false)
  }

  /** StartAttack: refused while falling or with no durability left. */
  function Started(s: PickaxeState): (r: PickaxeState)
    ensures r.isFalling <==> s.isFalling || s.durability > 0
    ensures r.durability == s.durability && r.target == s.target
  {
    if s.isFalling || s.durability <= 0 then s else s.(isFalling := true, fallRoutine := true)
  }

  /** The first lines of ReturnToStartPosition: no longer falling or bouncing, return under way. */
  function BeginReturn(s: PickaxeState): (r: PickaxeState)
    ensures !r.isFalling && !r.isBouncing && r.returnRoutine
    ensures r.durability == s.durability && r.target == s.target
  {
    s.(isFalling := false, isBouncing := false, returnRoutine := true)
  }

  /** StopAttack: only a falling pickaxe starts its return; it keeps its durability. */
  function Stopped(s: PickaxeState): (r: PickaxeState)
    ensures !r.isFalling && r.durability == s.durability
    ensures s.isFalling ==> r.returnRoutine
    ensures !s.isFalling ==> r == s
  {
    if s.isFalling then BeginReturn(s) else s
  }

  /** Starting and stopping an attack keep the invariant. */
  lemma StartStopKeepInv(s: PickaxeState)
    requires Inv(s)
    ensures Inv(Started(s)) && Inv(Stopped(s))
  {
  }

  /** A second StartAttack changes nothing. */
  lemma StartedIdempotent(s: PickaxeState)
    ensures Started(Started(s)) == Started(s)
  {
  }

  /** UpgradePickaxe(extraDurability, extraDamage): raises the maximum and the damage, then resets. */
  function Upgraded(s: PickaxeState, extraDurability: int, extraDamage: int): (r: PickaxeState)
    ensures AtRest(r)
    ensures r.maxDurability == s.maxDurability + extraDurability && r.damage == s.damage + extraDamage
    ensures s.maxDurability + extraDurability >= 0 ==> Inv(r)
  {
    Reset(s.(maxDurability := s.maxDurability + extraDurability, damage := s.damage + extraDamage))
  }

  /** The merge upgrade: on success one level up with the stat increments, otherwise nothing. */
  function Merged(s: PickaxeState, success: bool, extraDurability: int, extraDamage: int): (r: PickaxeState)
    ensures success ==> r.level == s.level + 1 && AtRest(r)
    ensures !success ==> r == s
  {
    if success then Upgraded(s.(level := s.level + 1), extraDurability, extraDamage) else s
  }

  /** A rectangle in world space, by centre and size. */
  datatype Box = Box(x: real, y: real, width: real, height: real)

  function Bottom(b: Box): real { b.y - b.height / 2.0 }
  function Top(b: Box): real { b.y + b.height / 2.0 }
  function Left(b: Box): real { b.x - b.width / 2.0 }
  function Right(b: Box): real { b.x + b.width / 2.0 }

  /** The pickaxe's bottom edge is inside the block's vertical span and the horizontal spans overlap. */
  predicate Overlaps(pickaxe: Box, block: Box): (r: bool)
    ensures r ==> Distance(pickaxe, block) <= block.height && Right(pickaxe) > Left(block)
  {
    && Bottom(pickaxe) <= Top(block) && Bottom(pickaxe) >= Bottom(block)
    && Right(pickaxe) > Left(block) && Left(pickaxe) < Right(block)
  }

  /** |pickaxe bottom - block top|. */
  function Distance(pickaxe: Box, block: Box): (d: real)
    ensures d >= 0.0 && (d == Bottom(pickaxe) - Top(block) || d == Top(block) - Bottom(pickaxe))
  {
    if Bottom(pickaxe) >= Top(block) then Bottom(pickaxe) - Top(block) else Top(block) - Bottom(pickaxe)
  }

  /** A block as the scene search finds it: whether its object is active and its rectangle,
      if it has one. */
  datatype Candidate = Candidate(block: Block, active: bool, rect: Option<Box>)

  function BlocksOf(cands: seq<Candidate>): set<Block>
  {
    set i | 0 <= i < |cands| :: cands[i].block
  }

  /** A live, active block with a rectangle that the pickaxe overlaps. */
  predicate Qualifies(c: Candidate, pickaxe: Box): (r: bool)
    reads c.block
    ensures r ==> c.rect.Some? && c.block.curHealth > 0 && Distance(pickaxe, c.rect.value) <= c.rect.value.height
  {
    c.block.curHealth > 0 && c.active && c.rect.Some? && Overlaps(pickaxe, c.rect.value)
  }

  /** r is the collision CheckBlockCollision reports: none when no candidate qualifies,
      otherwise a qualifying candidate at minimum distance, the first of those at equal
      distance. */
  ghost predicate IsClosest(cands: seq<Candidate>, pickaxe: Box, r: Option<nat>): (b: bool)
    reads BlocksOf(cands)
    ensures b ==> (r.None? <==> forall j :: 0 <= j < |cands| ==> !Qualifies(cands[j], pickaxe))
  {
    match r
    case None => forall j :: 0 <= j < |cands| ==> !Qualifies(cands[j], pickaxe)
    case Some(k) =>
      && k < |cands| && Qualifies(cands[k], pickaxe)
      && (forall j :: 0 <= j < k && Qualifies(cands[j], pickaxe) ==>
            Distance(pickaxe, cands[j].rect.value) > Distance(pickaxe, cands[k].rect.value))
      && (forall j :: k < j < |cands| && Qualifies(cands[j], pickaxe) ==>
            Distance(pickaxe, cands[j].rect.value) >= Distance(pickaxe, cands[k].rect.value))
  }

  /** The collision is determined by the candidates and the pickaxe's rectangle. */
  lemma ClosestUnique(cands: seq<Candidate>, pickaxe: Box, r1: Option<nat>, r2: Option<nat>)
    requires IsClosest(cands, pickaxe, r1) && IsClosest(cands, pickaxe, r2)
    ensures r1 == r2
  {
  }

  /** Scans the blocks in order, keeping the qualifying one nearest to the pickaxe's bottom edge. */
  method CheckBlockCollision(cands: seq<Candidate>, pickaxe: Box) returns (r: Option<nat>)
    ensures IsClosest(cands, pickaxe, r)
  {
    r := None;
    var closestDistance: real := 0.0;
    for i := 0 to |cands|
      invariant r.None? ==> forall j :: 0 <= j < i ==> !Qualifies(cands[j], pickaxe)
      invariant r.Some? ==> r.value < i && Qualifies(cands[r.value], pickaxe)
      invariant r.Some? ==> closestDistance == Distance(pickaxe, cands[r.value].rect.value)
      invariant r.Some? ==> forall j :: 0 <= j < r.value && Qualifies(cands[j], pickaxe) ==>
                  Distance(pickaxe, cands[j].rect.value) > closestDistance
      invariant r.Some? ==> forall j :: r.value < j < i && Qualifies(cands[j], pickaxe) ==>
                  Distance(pickaxe, cands[j].rect.value) >= closestDistance
    {
      var c := cands[i];
      if c.block.curHealth > 0 && c.active {
        if c.rect.None? {
          continue;
        }
        var rect := c.rect.value;
        if Overlaps(pickaxe, rect) {
          var distance := Distance(pickaxe, rect);
          if r.None? || distance < closestDistance {
            closestDistance := distance;
            r := Some(i);
          }
        }
      }
    }
  }

  class Pickaxe {
    var maxDurability: int
    var damage: int
    var currentDurability: int
    var isFalling: bool
    var isBouncing: bool
    var currentTargetBlock: Block?
    /** The merge level (GetLvl / SetPickaxe(level)). */
    var level: nat
    var fallRoutine: bool
    var hit: HitStage
    var returnRoutine: bool

    function State(): PickaxeState
      reads this
    {
      PickaxeState(maxDurability, damage, currentDurability, isFalling, isBouncing,
                   currentTargetBlock, level, fallRoutine, hit, returnRoutine)
    }

    ghost predicate Valid()
      reads this
    {
      Inv(State())
    }

    /** A pickaxe instantiated from its prefab at the given level; Start fills its durability. */
    constructor (maxDurability: int, damage: int, level: nat)
      requires maxDurability >= 0
      ensures Valid() && AtRest(State())
      ensures this.maxDurability == maxDurability && this.damage == damage && this.level == level
    {
      this.maxDurability := maxDurability;
      this.damage := damage;
      this.level := level;
      currentDurability := maxDurability;
      isFalling, isBouncing, currentTargetBlock := false, false, null;
      fallRoutine, hit, returnRoutine := false, NoHit, false;
    }

    method StartAttack()
      modifies this
      ensures State() == Started(old(State()))
    {
      if isFalling || currentDurability <= 0 {
        return;
      }
      isFalling := true;
      fallRoutine := true;
    }

    /** One pass of FallingRoutine's loop up to the collision test: the loop ends once the
        pickaxe no longer falls; otherwise a live block that differs from the current
        target becomes the target and HitBlockRoutine starts bouncing on it. */
    method FallStep(cands: seq<Candidate>, pickaxe: Box) returns (hitIndex: Option<nat>)
      requires Valid() && fallRoutine && hit == NoHit
      modifies this
      ensures Valid()
      ensures !old(isFalling) ==> hitIndex.None? && State() == old(State()).(fallRoutine := false)
      ensures old(isFalling) ==> IsClosest(cands, pickaxe, hitIndex)
      ensures old(isFalling) ==>
                if hitIndex.Some? && cands[hitIndex.value].block != old(currentTargetBlock)
                then State() == old(State()).(target := cands[hitIndex.value].block, isBouncing := true, hit := BeforeFirstStrike)
                else State() == old(State())
    {
      if !(isFalling && currentDurability > 0) {
        fallRoutine := false;
        return None;
      }
      hitIndex := CheckBlockCollision(cands, pickaxe);
      if hitIndex.Some? {
        var hitBlock := cands[hitIndex.value].block;
        if hitBlock.curHealth > 0 && currentTargetBlock != hitBlock {
          currentTargetBlock := hitBlock;
          isBouncing := true;
          hit := BeforeFirstStrike;
        }
      }
    }

    /** A strike of HitBlockRoutine, after one of its waits: the target is dug with the
        pickaxe's damage whatever its health has become meanwhile, and one durability is
        used. At zero the pickaxe breaks (the OnPickaxeBreak result) and returns; a target
        left at zero is released and falling resumes; otherwise the routine waits again,
        after the first strike having passed the loop test already. */
    method Strike(gm: GameManager) returns (digged: bool, broke: bool)
      requires Valid() && (hit == BeforeFirstStrike || hit == BeforeLoopStrike)
      modifies this, currentTargetBlock, gm`money
      ensures Valid()
      ensures var t := old(currentTargetBlock);
                && t.curHealth == DiggedHealth(old(t.curHealth), old(damage))
                && (digged <==> t.curHealth <= 0)
                && t.visible == (old(t.visible) && !digged)
                && gm.money == old(gm.money) + old(damage) + (if digged then t.reward else 0)
                && currentDurability == old(currentDurability) - 1
                && (broke <==> currentDurability == 0)
      ensures broke ==>
                State() == BeginReturn(old(State())).(durability := old(currentDurability) - 1, hit := NoHit, fallRoutine := false)
      ensures !broke && digged ==>
                State() == old(State()).(durability := old(currentDurability) - 1, target := null, isBouncing := false, hit := NoHit)
      ensures !broke && !digged ==>
                State() == old(State()).(durability := old(currentDurability) - 1,
                                         hit := if old(hit) == BeforeFirstStrike then BeforeLoopStrike else AtLoopHead)
    {
      var target := currentTargetBlock;
      digged := target.Dig(damage, gm);
      currentDurability := currentDurability - 1;
      broke := false;
      if currentDurability <= 0 {
        broke := true;
        isFalling := false;
        isBouncing := false;
        returnRoutine := true;
        hit := NoHit;
        fallRoutine := false;
        return;
      }
      if target.curHealth <= 0 {
        currentTargetBlock := null;
        isBouncing := false;
        hit := NoHit;
      } else if hit == BeforeFirstStrike {
        hit := BeforeLoopStrike;
      } else {
        hit := AtLoopHead;
      }
    }

    /** The bounce loop's test, after the wait that ends a pass: a target that still has
        health is struck again after the next wait; otherwise the routine ends and falling
        resumes. */
    method LoopHead() returns (again: bool)
      requires Valid() && hit == AtLoopHead
      modifies this
      ensures Valid()
      ensures again <==> old(currentTargetBlock.curHealth) > 0
      ensures again ==> State() == old(State()).(hit := BeforeLoopStrike)
      ensures !again ==> State() == old(State()).(isBouncing := false, hit := NoHit)
    {
      again := currentTargetBlock.curHealth > 0 && currentDurability > 0;
      if again {
        hit := BeforeLoopStrike;
      } else {
        isBouncing := false;
        hit := NoHit;
      }
    }

    /** FallingRoutine's bottom test succeeded: the fall ends in a return. */
    method ReachBottom()
      requires Valid() && fallRoutine && hit == NoHit
      modifies this
      ensures Valid() && State() == BeginReturn(old(State())).(fallRoutine := false)
    {
      isFalling := false;
      isBouncing := false;
      returnRoutine := true;
      fallRoutine := false;
    }

    method StopAttack()
      modifies this
      ensures State() == Stopped(old(State()))
    {
      if isFalling {
        isFalling := false;
        isBouncing := false;
        returnRoutine := true;
      }
    }

    /** The end of ReturnToStartPosition: target released, then ResetPickaxe. */
    method ReturnComplete()
      requires Valid() && returnRoutine
      modifies this
      ensures Valid() && State() == Reset(old(State()))
    {
      currentTargetBlock := null;
      ResetPickaxe();
    }

    method ResetPickaxe()
      modifies this
      ensures State() == Reset(old(State()))
      ensures maxDurability >= 0 ==> Valid()
    {
      currentDurability := maxDurability;
      isFalling := false;
      isBouncing := false;
      currentTargetBlock := null;
      fallRoutine, hit, returnRoutine := false, NoHit, false;
    }

    method UpgradePickaxe(extraDurability: int, extraDamage: int)
      modifies this
      ensures State() == Upgraded(old(State()), extraDurability, extraDamage)
      ensures maxDurability >= 0 ==> Valid()
    {
      maxDurability := maxDurability + extraDurability;
      damage := damage + extraDamage;
      ResetPickaxe();
    }

    /** The merge upgrade the cells call (UpgradePickaxe(): bool); whether it succeeds,
        and by how much the stats grow, are parameters. */
    method TryUpgrade(success: bool, extraDurability: int, extraDamage: int) returns (ok: bool)
      modifies this
      ensures ok == success
      ensures State() == Merged(old(State()), success, extraDurability, extraDamage)
      ensures old(Valid()) && (success ==> maxDurability >= 0) ==> Valid()
    {
      ok := success;
      if success {
        level := level + 1;
        UpgradePickaxe(extraDurability, extraDamage);
      }
    }
  }

  /** Two pickaxes of damage 1 land on the same block of health 2 and reward 5. The first
      strike of one leaves it at 1, the other depletes it, and the first pickaxe's next
      strike, after its wait, digs the depleted block again: it pays 1 + 5 once more and
      raises onDigged a second time. */
  method SharedTargetScenario() returns (earned: int, dugAgain: bool)
    ensures earned == 13 && dugAgain
  {
    var gm := new GameManager();
    var block := new Block(2, 5);
    var p := LandOn(block);
    var q := LandOn(block);
    var d1, b1 := p.Strike(gm);
    assert block.curHealth == 1 && p.hit == BeforeLoopStrike;
    var d2, b2 := q.Strike(gm);
    assert block.curHealth == 0 && gm.money == 7;
    var d3, b3 := p.Strike(gm);
    earned, dugAgain := gm.money, d3;
  }

  /** A new pickaxe (durability 10, damage 1) dropped above a live block lands on it and
      waits to strike it. */
  method LandOn(block: Block) returns (p: Pickaxe)
    requires block.curHealth > 0
    ensures fresh(p)
    ensures p.Valid() && p.currentTargetBlock == block && p.hit == BeforeFirstStrike
    ensures p.damage == 1 && p.currentDurability == 10
  {
    p := new Pickaxe(10, 1, 0);
    var box := Box(0.0, 0.0, 1.0, 1.0);
    var cands := [Candidate(block, true, Some(Box(0.0, -1.0, 1.0, 1.0)))];
    assert Qualifies(cands[0], box);
    p.StartAttack();
    var hit := p.FallStep(cands, box);
  }
}

/** An inventory slot that holds at most one pickaxe, and the drag-and-drop of pickaxes
    between slots: dropping on an empty slot moves it, dropping on a pickaxe of the same
    level merges the two, anything else sends it back. */
module Cells {
  import opened Pickaxes

  /** The drag in progress, shared by every cell (the static fields of the cell class). */
  class DragSession {
    var dragged: Pickaxe?
    var startCell: Cell?

    constructor ()
      ensures dragged == null && startCell == null
    {
      dragged, startCell := null, null;
    }
  }

  /** The cell a release drops on: the first raycast hit that is a cell other than the one
      the drag started from, or null when there is none. */
  function FirstDropCell(hits: seq<Cell?>, start: Cell?): (r: Cell?)
    ensures r == null <==> forall i :: 0 <= i < |hits| ==> hits[i] == null || hits[i] == start
    ensures r != null ==>
              r != start &&
              exists k :: 0 <= k < |hits| && hits[k] == r && (forall j :: 0 <= j < k ==> hits[j] == null || hits[j] == start)
  {
    if hits == [] then null
    else if hits[0] != null && hits[0] != start then hits[0]
    else
      var r := FirstDropCell(hits[1..], start);
      assert forall i :: 1 <= i < |hits| ==> hits[i] == hits[1..][i - 1];
      if r != null then
        var k :| 0 <= k < |hits[1..]| && hits[1..][k] == r &&
                 forall j :: 0 <= j < k ==> hits[1..][j] == null || hits[1..][j] == start;
        assert hits[k + 1] == r;
        r
      else r
  }

  class Cell {
    var currentPickaxe: Pickaxe?

    constructor ()
      ensures currentPickaxe == null
    {
      currentPickaxe := null;
    }

    /** Seats a pickaxe in this cell (or empties it, given null); a falling pickaxe
        starts its return. */
    method SetPickaxe(pickaxe: Pickaxe?)
      modifies this`currentPickaxe, pickaxe
      ensures currentPickaxe == pickaxe
      ensures pickaxe != null ==> pickaxe.State() == Stopped(old(pickaxe.State()))
    {
      currentPickaxe := pickaxe;
      if pickaxe != null {
        pickaxe.StopAttack();
      }
    }

    method HasPickaxe() returns (has: bool)
      ensures has <==> currentPickaxe != null
    {
      has := currentPickaxe != null;
    }

    /** A left press on an occupied cell starts a drag, unless one is already under way. */
    method OnPointerDown(drag: DragSession, left: bool)
      modifies this`currentPickaxe, drag
      ensures if left && old(currentPickaxe) != null && old(drag.dragged) == null
              then drag.dragged == old(currentPickaxe) && drag.startCell == this && currentPickaxe == null
              else currentPickaxe == old(currentPickaxe) && unchanged(drag)
    {
      if !left {
        return;
      }
      if currentPickaxe != null && drag.dragged == null {
        StartDrag(drag);
      }
    }

    /** Lifts the pickaxe out of this cell: the cell is empty while it is dragged. */
    method StartDrag(drag: DragSession)
      modifies this`currentPickaxe, drag
      ensures drag.dragged == old(currentPickaxe) && drag.startCell == this && currentPickaxe == null
    {
      drag.dragged := currentPickaxe;
      drag.startCell := this;
      currentPickaxe := null;
    }

    /** A left release ends the drag in progress. `hits` are the cells under the pointer in
        raycast order (null for a hit without a cell); `success`, `extraDurability` and
        `extraDamage` are the outcome of the merge upgrade, should one be attempted. The
        result is the pickaxe reported through onDestroyPickaxe, if any. */
    method OnPointerUp(drag: DragSession, left: bool, hits: seq<Cell?>,
                       success: bool, extraDurability: int, extraDamage: int)
      returns (destroyed: Pickaxe?)
      modifies drag, drag.startCell, drag.dragged, set i | 0 <= i < |hits| && hits[i] != null :: hits[i]
      modifies set i | 0 <= i < |hits| && hits[i] != null && hits[i].currentPickaxe != null :: hits[i].currentPickaxe
      ensures !left || old(drag.dragged) == null ==> destroyed == null && unchanged(drag)
      ensures left && old(drag.dragged) != null ==> drag.dragged == null && drag.startCell == null
      ensures destroyed != null ==> destroyed == old(drag.dragged)
      ensures left && old(drag.dragged) != null ==>
                var t, p, s := FirstDropCell(hits, old(drag.startCell)), old(drag.dragged), old(drag.startCell);
                && (t == null && s != null ==> destroyed == null && s.currentPickaxe == p && p.State() == Stopped(old(p.State())))
                && (t == null && s == null ==> destroyed == p && p.State() == old(p.State()))
                && (t != null && old(t.currentPickaxe) == null ==>
                      && destroyed == null && t.currentPickaxe == p && p.State() == Stopped(old(p.State()))
                      && (s != null ==> s.currentPickaxe == old(s.currentPickaxe)))
                && (t != null && old(t.currentPickaxe) != null && old(t.currentPickaxe.level) == old(p.level) && success ==>
                      && destroyed == p && t.currentPickaxe == old(t.currentPickaxe)
                      && t.currentPickaxe.State() == Merged(old(t.currentPickaxe.State()), true, extraDurability, extraDamage)
                      && (s != null ==> s.currentPickaxe == old(s.currentPickaxe)))
                && (t != null && old(t.currentPickaxe) != null && !(old(t.currentPickaxe.level) == old(p.level) && success) ==>
                      && t.currentPickaxe == old(t.currentPickaxe)
                      && (old(t.currentPickaxe) != p ==> t.currentPickaxe.State() == old(t.currentPickaxe.State()))
                      && (s != null ==> destroyed == null && s.currentPickaxe == p && p.State() == Stopped(old(p.State())))
                      && (s == null ==> destroyed == p))
      ensures left && old(drag.dragged) != null ==>
                var t, p, s := FirstDropCell(hits, old(drag.startCell)), old(drag.dragged), old(drag.startCell);
                forall h :: h in hits && h != null && h != t && h != s ==>
                  && h.currentPickaxe == old(h.currentPickaxe)
                  && (h.currentPickaxe != null && h.currentPickaxe != p && (t == null || h.currentPickaxe != old(t.currentPickaxe)) ==>
                        h.currentPickaxe.State() == old(h.currentPickaxe.State()))
    {
      destroyed := null;
      if !left {
        return;
      }
      if drag.dragged != null {
        destroyed := EndDrag(drag, hits, success, extraDurability, extraDamage);
      }
    }

    /** Drops on the first cell under the pointer, or returns the pickaxe when there is none;
        then the drag state is cleared. */
    method EndDrag(drag: DragSession, hits: seq<Cell?>, success: bool, extraDurability: int, extraDamage: int)
      returns (destroyed: Pickaxe?)
      requires drag.dragged != null
      modifies drag, drag.startCell, drag.dragged, set i | 0 <= i < |hits| && hits[i] != null :: hits[i]
      modifies set i | 0 <= i < |hits| && hits[i] != null && hits[i].currentPickaxe != null :: hits[i].currentPickaxe
      ensures drag.dragged == null && drag.startCell == null
      ensures destroyed != null ==> destroyed == old(drag.dragged)
      ensures var t, p, s := FirstDropCell(hits, old(drag.startCell)), old(drag.dragged), old(drag.startCell);
                && (t == null && s != null ==> destroyed == null && s.currentPickaxe == p && p.State() == Stopped(old(p.State())))
                && (t == null && s == null ==> destroyed == p && p.State() == old(p.State()))
                && (t != null && old(t.currentPickaxe) == null ==>
                      && destroyed == null && t.currentPickaxe == p && p.State() == Stopped(old(p.State()))
                      && (s != null ==> s.currentPickaxe == old(s.currentPickaxe)))
                && (t != null && old(t.currentPickaxe) != null && old(t.currentPickaxe.level) == old(p.level) && success ==>
                      && destroyed == p && t.currentPickaxe == old(t.currentPickaxe)
                      && t.currentPickaxe.State() == Merged(old(t.currentPickaxe.State()), true, extraDurability, extraDamage)
                      && (s != null ==> s.currentPickaxe == old(s.currentPickaxe)))
                && (t != null && old(t.currentPickaxe) != null && !(old(t.currentPickaxe.level) == old(p.level) && success) ==>
                      && t.currentPickaxe == old(t.currentPickaxe)
                      && (old(t.currentPickaxe) != p ==> t.currentPickaxe.State() == old(t.currentPickaxe.State()))
                      && (s != null ==> destroyed == null && s.currentPickaxe == p && p.State() == Stopped(old(p.State())))
                      && (s == null ==> destroyed == p))
      ensures var t, p, s := FirstDropCell(hits, old(drag.startCell)), old(drag.dragged), old(drag.startCell);
                forall h :: h in hits && h != null && h != t && h != s ==>
                  && h.currentPickaxe == old(h.currentPickaxe)
                  && (h.currentPickaxe != null && h.currentPickaxe != p && (t == null || h.currentPickaxe != old(t.currentPickaxe)) ==>
                        h.currentPickaxe.State() == old(h.currentPickaxe.State()))
    {
      var target := GetCellUnderCursor(hits, drag);
      if target != null {
        destroyed := HandleDropOnCell(target, drag, success, extraDurability, extraDamage);
      } else {
        destroyed := ReturnPickaxeToStartCell(drag);
      }
      ResetDragState(drag);
    }

    /** The three ways a drop ends: on an empty cell the pickaxe moves there; on a pickaxe
        of the same level whose upgrade succeeds the target is upgraded and the dragged one
        destroyed; otherwise the dragged pickaxe goes back. */
    method HandleDropOnCell(target: Cell, drag: DragSession, success: bool, extraDurability: int, extraDamage: int)
      returns (destroyed: Pickaxe?)
      requires target != drag.startCell
      requires drag.dragged != null
      modifies target`currentPickaxe, target.currentPickaxe, drag.dragged, drag.startCell
      ensures unchanged(drag)
      ensures old(target.currentPickaxe) == null ==>
                && destroyed == null && target.currentPickaxe == old(drag.dragged)
                && drag.dragged.State() == Stopped(old(drag.dragged.State()))
                && (drag.startCell != null ==> drag.startCell.currentPickaxe == old(drag.startCell.currentPickaxe))
      ensures old(target.currentPickaxe) != null && old(target.currentPickaxe.level) == old(drag.dragged.level) && success ==>
                && destroyed == old(drag.dragged) && target.currentPickaxe == old(target.currentPickaxe)
                && target.currentPickaxe.State() == Merged(old(target.currentPickaxe.State()), true, extraDurability, extraDamage)
                && (drag.startCell != null ==> drag.startCell.currentPickaxe == old(drag.startCell.currentPickaxe))
      ensures old(target.currentPickaxe) != null && !(old(target.currentPickaxe.level) == old(drag.dragged.level) && success) ==>
                && target.currentPickaxe == old(target.currentPickaxe)
                && (old(target.currentPickaxe) != drag.dragged ==> target.currentPickaxe.State() == old(target.currentPickaxe.State()))
                && (drag.startCell != null ==>
                      destroyed == null && drag.startCell.currentPickaxe == drag.dragged &&
                      drag.dragged.State() == Stopped(old(drag.dragged.State())))
                && (drag.startCell == null ==> destroyed == drag.dragged)
    {
      if target.currentPickaxe == null {
        target.SetPickaxe(drag.dragged);
        destroyed := null;
      } else {
        var targetPickaxe := target.currentPickaxe;
        if targetPickaxe.level == drag.dragged.level {
          var upgradeSuccess := targetPickaxe.TryUpgrade(success, extraDurability, extraDamage);
          if upgradeSuccess {
            destroyed := drag.dragged;
          } else {
            destroyed := ReturnPickaxeToStartCell(drag);
          }
        } else {
          destroyed := ReturnPickaxeToStartCell(drag);
        }
      }
    }

    /** Puts the dragged pickaxe back where the drag started; with no start cell it is destroyed. */
    method ReturnPickaxeToStartCell(drag: DragSession) returns (destroyed: Pickaxe?)
      requires drag.dragged != null
      modifies drag.startCell, drag.dragged
      ensures unchanged(drag)
      ensures drag.startCell != null ==>
                && destroyed == null && drag.startCell.currentPickaxe == drag.dragged
                && drag.dragged.State() == Stopped(old(drag.dragged.State()))
      ensures drag.startCell == null ==> destroyed == drag.dragged && unchanged(drag.dragged)
    {
      if drag.startCell != null {
        drag.startCell.SetPickaxe(drag.dragged);
        destroyed := null;
      } else {
        destroyed := drag.dragged;
      }
    }

    method ResetDragState(drag: DragSession)
      modifies drag
      ensures drag.dragged == null && drag.startCell == null
    {
      drag.dragged := null;
      drag.startCell := null;
    }

    /** The first cell among the raycast hits that is not the cell the drag started from. */
    method GetCellUnderCursor(hits: seq<Cell?>, drag: DragSession) returns (r: Cell?)
      ensures r == FirstDropCell(hits, drag.startCell)
    {
      for i := 0 to |hits|
        invariant FirstDropCell(hits[i..], drag.startCell) == FirstDropCell(hits, drag.startCell)
      {
        assert hits[i..][1..] == hits[i + 1..];
        var cell := hits[i];
        if cell != null && cell != drag.startCell {
          return cell;
        }
      }
      return null;
    }
  }

  /** A left press on `start` followed by a left release over `target` alone: what becomes
      of the two cells and of their pickaxes. */
  method Gesture(start: Cell, target: Cell, drag: DragSession, success: bool, extraDurability: int, extraDamage: int)
    returns (destroyed: Pickaxe?)
    requires start != target && drag.dragged == null
    requires start.currentPickaxe != null && start.currentPickaxe != target.currentPickaxe
    modifies start, target, drag, start.currentPickaxe, target.currentPickaxe
    ensures drag.dragged == null && drag.startCell == null
    ensures var p, q := old(start.currentPickaxe), old(target.currentPickaxe);
              && (q == null ==>
                    destroyed == null && start.currentPickaxe == null && target.currentPickaxe == p && p.level == old(p.level))
              && (q != null && old(q.level) == old(p.level) && success ==>
                    destroyed == p && start.currentPickaxe == null && target.currentPickaxe == q && q.level == old(q.level) + 1)
              && (q != null && !(old(q.level) == old(p.level) && success) ==>
                    destroyed == null && start.currentPickaxe == p && target.currentPickaxe == q &&
                    p.level == old(p.level) && q.level == old(q.level))
  {
    start.OnPointerDown(drag, true);
    assert FirstDropCell([target], start) == target;
    destroyed := start.OnPointerUp(drag, true, [target], success, extraDurability, extraDamage);
  }
}

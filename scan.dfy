/**
 * The per-cell rule that Reed Richards' action loop and the first loop of
 * Sue Storm's action loop share: an empty neighbour offers a Move, a bridge
 * offers a Repair while its health is below 1.0 and always a Protect, and
 * any other occupant offers nothing.
 */
module Scan {
  import opened Wrappers
  import opened Geometry
  import opened Entities
  import opened World

  predicate IsBridgeAt(v: View, l: Loc)
    requires IsView(v)
  {
    RoleAt(v, l) == Some(Bridge)
  }

  predicate NeedsRepairAt(v: View, l: Loc)
    requires IsView(v)
  {
    IsBridgeAt(v, l) && SeenAt(v, l).value.health < 1.0
  }

  /** What one scanned cell adds to the list. */
  function CellActions(me: Agent, l: Loc, s: Option<Seen>): seq<Action>
  {
    if s.None? then [Move(l, me, false)]
    else if RoleOf(s.value.kind) == Bridge then
      (if s.value.health < 1.0 then [Repair(l, me)] else []) + [Protect(l, me)]
    else []
  }

  /** The list the loop has built after scanning `locs` in order. */
  function ScanRules(me: Agent, locs: seq<Loc>, v: View): seq<Action>
    requires IsView(v)
  {
    if locs == [] then []
    else
      var l := locs[|locs| - 1];
      ScanRules(me, locs[..|locs| - 1], v) + CellActions(me, l, SeenAt(v, l))
  }

  /** One more scanned cell appends that cell's actions. */
  lemma ScanStep(me: Agent, locs: seq<Loc>, i: int, v: View)
    requires IsView(v) && 0 <= i < |locs|
    ensures ScanRules(me, locs[..i + 1], v)
         == ScanRules(me, locs[..i], v) + CellActions(me, locs[i], SeenAt(v, locs[i]))
  {
    assert locs[..i + 1][..i] == locs[..i];
  }

  /** The Move, Repair and Protect entries are exactly the ones the cells call for. */
  lemma {:induction false} ScanRulesMembers(me: Agent, locs: seq<Loc>, v: View, l: Loc)
    requires IsView(v)
    ensures Move(l, me, false) in ScanRules(me, locs, v) <==> l in locs && Vacant(v, l)
    ensures Repair(l, me) in ScanRules(me, locs, v) <==> l in locs && NeedsRepairAt(v, l)
    ensures Protect(l, me) in ScanRules(me, locs, v) <==> l in locs && IsBridgeAt(v, l)
  {
    if locs != [] {
      var init, last := locs[..|locs| - 1], locs[|locs| - 1];
      assert locs == init + [last];
      ScanRulesMembers(me, init, v, l);
    }
  }

  /** Every entry is an unflagged Move, a Repair or a Protect by `me` on a scanned cell. */
  lemma {:induction false} ScanRulesShape(me: Agent, locs: seq<Loc>, v: View)
    requires IsView(v)
    ensures forall a :: a in ScanRules(me, locs, v) ==>
      a.actor == me && a.target in locs
      && ((a.Move? && !a.moveFranklin) || a.Repair? || a.Protect?)
  {
    if locs != [] {
      var init, last := locs[..|locs| - 1], locs[|locs| - 1];
      assert locs == init + [last];
      ScanRulesShape(me, init, v);
    }
  }

  /** Each cell adds at most two entries. */
  lemma {:induction false} ScanRulesLength(me: Agent, locs: seq<Loc>, v: View)
    requires IsView(v)
    ensures |ScanRules(me, locs, v)| <= 2 * |locs|
  {
    if locs != [] {
      ScanRulesLength(me, locs[..|locs| - 1], v);
    }
  }

  predicate RepairsFollowed(acts: seq<Action>, me: Agent)
  {
    forall i :: 0 <= i < |acts| && acts[i].Repair? ==>
      i + 1 < |acts| && acts[i + 1] == Protect(acts[i].target, me)
  }

  /** A Repair is always followed at once by the Protect on the same cell. */
  lemma {:induction false} RepairThenProtect(me: Agent, locs: seq<Loc>, v: View)
    requires IsView(v)
    ensures RepairsFollowed(ScanRules(me, locs, v), me)
  {
    if locs != [] {
      var l := locs[|locs| - 1];
      var prev := ScanRules(me, locs[..|locs| - 1], v);
      var cell := CellActions(me, l, SeenAt(v, l));
      RepairThenProtect(me, locs[..|locs| - 1], v);
      var acts := prev + cell;
      forall i | 0 <= i < |acts| && acts[i].Repair?
        ensures i + 1 < |acts| && acts[i + 1] == Protect(acts[i].target, me)
      {
        if i < |prev| {
          assert acts[i] == prev[i];
          if i + 1 < |prev| {
            assert acts[i + 1] == prev[i + 1];
          } else {
            assert false;
          }
        } else {
          assert acts[i] == cell[i - |prev|];
          assert SeenAt(v, l).Some? && RoleOf(SeenAt(v, l).value.kind) == Bridge && SeenAt(v, l).value.health < 1.0;
          assert cell == [Repair(l, me), Protect(l, me)];
          assert i == |prev|;
          assert acts[i + 1] == cell[1];
        }
      }
    }
  }

  function MoveCount(acts: seq<Action>): nat
  {
    if acts == [] then 0
    else MoveCount(acts[..|acts| - 1]) + (if acts[|acts| - 1].Move? then 1 else 0)
  }

  lemma {:induction false} MoveCountAppend(a: seq<Action>, b: seq<Action>)
    ensures MoveCount(a + b) == MoveCount(a) + MoveCount(b)
  {
    if b != [] {
      assert (a + b)[..|a + b| - 1] == a + b[..|b| - 1];
      assert (a + b)[|a + b| - 1] == b[|b| - 1];
      assert MoveCount(a + b) == MoveCount((a + b)[..|a + b| - 1]) + (if (a + b)[|a + b| - 1].Move? then 1 else 0);
      MoveCountAppend(a, b[..|b| - 1]);
    } else {
      assert a + b == a;
    }
  }

  function VacantCount(locs: seq<Loc>, v: View): nat
    requires IsView(v)
  {
    if locs == [] then 0
    else VacantCount(locs[..|locs| - 1], v) + (if Vacant(v, locs[|locs| - 1]) then 1 else 0)
  }

  /** There is one Move per empty scanned cell. */
  lemma {:induction false} ScanMovesPerVacantCell(me: Agent, locs: seq<Loc>, v: View)
    requires IsView(v)
    ensures MoveCount(ScanRules(me, locs, v)) == VacantCount(locs, v)
  {
    if locs != [] {
      var l := locs[|locs| - 1];
      ScanMovesPerVacantCell(me, locs[..|locs| - 1], v);
      MoveCountAppend(ScanRules(me, locs[..|locs| - 1], v), CellActions(me, l, SeenAt(v, l)));
      var cell := CellActions(me, l, SeenAt(v, l));
      if SeenAt(v, l).Some? && RoleOf(SeenAt(v, l).value.kind) == Bridge {
        if SeenAt(v, l).value.health < 1.0 {
          assert cell == [Repair(l, me), Protect(l, me)];
          assert cell[..1] == [Repair(l, me)];
          assert cell[..1][..0] == [];
          assert MoveCount(cell[..1]) == 0;
          assert MoveCount(cell) == 0;
        } else {
          assert cell == [Protect(l, me)];
          assert cell[..0] == [];
        }
      }
    }
  }
}

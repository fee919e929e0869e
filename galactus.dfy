/**
 * Galactus (model/agents/galactus.py): the villain that walks one step at a
 * time towards Franklin or towards the tightest largest cluster of bridges.
 */
module Galactus {
  import opened Wrappers
  import opened Geometry
  import opened Entities
  import opened World

  /** Galactus.__init__: a villain with full health, attack rate 1.0, damage rate 0.0. */
  method NewGalactus(l: Loc) returns (a: Agent)
    ensures fresh(a) && a.kind == GalactusKind && a.location == Some(l)
    ensures a.health == 1.0 && a.q == map[] && a.Role() == Villain
    ensures AttackRate(a.kind) == Some(1.0) && DamageRate(a.kind) == Some(0.0)
  {
    a := new Agent(GalactusKind, Some(l), None);
  }

  // ---------------------------------------------------------------------
  // itertools.combinations
  // ---------------------------------------------------------------------

  function PrependAll<T>(x: T, cs: seq<seq<T>>): (r: seq<seq<T>>)
    ensures |r| == |cs|
  {
    if cs == [] then [] else [[x] + cs[0]] + PrependAll(x, cs[1..])
  }

  lemma {:induction false} PrependAllAt<T>(x: T, cs: seq<seq<T>>, i: int)
    requires 0 <= i < |cs|
    ensures |PrependAll(x, cs)| == |cs| && PrependAll(x, cs)[i] == [x] + cs[i]
  {
    if i > 0 {
      PrependAllAt(x, cs[1..], i - 1);
    }
  }

  /**
   * combinations(xs, k): the k-element subsequences of xs, in the
   * lexicographic order of their positions.
   */
  function Combos<T>(xs: seq<T>, k: nat): (cs: seq<seq<T>>)
    decreases |xs|
  {
    if k == 0 then [[]]
    else if xs == [] then []
    else PrependAll(xs[0], Combos(xs[1..], k - 1)) + Combos(xs[1..], k)
  }

  /** There is a combination exactly when k <= |xs|. */
  lemma {:induction false} CombosNonEmpty<T>(xs: seq<T>, k: nat)
    ensures k <= |xs| <==> Combos(xs, k) != []
    decreases |xs|
  {
    if k > 0 && xs != [] {
      CombosNonEmpty(xs[1..], k - 1);
      CombosNonEmpty(xs[1..], k);
    }
  }

  lemma MultisetTail<T>(xs: seq<T>)
    requires xs != []
    ensures multiset(xs) == multiset{xs[0]} + multiset(xs[1..])
  {
    assert xs == [xs[0]] + xs[1..];
  }

  /** An entry of PrependAll(x, cs) is x in front of an entry of cs. */
  lemma PrependedMember<T>(x: T, cs: seq<seq<T>>, c: seq<T>) returns (rest: seq<T>)
    requires c in PrependAll(x, cs)
    ensures rest in cs && c == [x] + rest
  {
    var i :| 0 <= i < |cs| && PrependAll(x, cs)[i] == c;
    PrependAllAt(x, cs, i);
    rest := cs[i];
  }

  /** Every combination has k elements, each taken from xs no more often than it occurs there. */
  lemma {:induction false} CombosMember<T>(xs: seq<T>, k: nat, c: seq<T>)
    requires c in Combos(xs, k)
    ensures |c| == k && multiset(c) <= multiset(xs)
    decreases |xs|
  {
    if k > 0 && xs != [] {
      MultisetTail(xs);
      if c in PrependAll(xs[0], Combos(xs[1..], k - 1)) {
        var rest := PrependedMember(xs[0], Combos(xs[1..], k - 1), c);
        CombosMember(xs[1..], k - 1, rest);
        assert multiset(c) == multiset{xs[0]} + multiset(rest);
      } else {
        CombosMember(xs[1..], k, c);
      }
    }
  }

  function Binomial(n: nat, k: nat): nat
  {
    if k == 0 then 1 else if n == 0 then 0 else Binomial(n - 1, k - 1) + Binomial(n - 1, k)
  }

  /** There are C(n, k) combinations. */
  lemma {:induction false} CombosCount<T>(xs: seq<T>, k: nat)
    ensures |Combos(xs, k)| == Binomial(|xs|, k)
    decreases |xs|
  {
    if k > 0 && xs != [] {
      CombosCount(xs[1..], k - 1);
      CombosCount(xs[1..], k);
    }
  }

  /** The order itertools documents, on three bridges. */
  lemma CombosOrder(a: Loc, b: Loc, c: Loc)
    ensures Combos([a, b, c], 2) == [[a, b], [a, c], [b, c]]
    ensures Combos([a, b, c], 3) == [[a, b, c]]
  {
    assert [a, b, c][1..] == [b, c];
    CombosOfTwo(b, c);
    assert [a] + [b] == [a, b] && [a] + [c] == [a, c] && [a] + [b, c] == [a, b, c];
    assert PrependAll(a, [[b], [c]]) == [[a, b], [a, c]];
    assert PrependAll(a, [[b, c]]) == [[a, b, c]];
  }

  lemma CombosOfTwo(b: Loc, c: Loc)
    ensures Combos([b, c], 1) == [[b], [c]]
    ensures Combos([b, c], 2) == [[b, c]]
    ensures Combos([b, c], 3) == []
  {
    assert [b, c][1..] == [c];
    CombosOfOne(c);
    assert [b] + [] == [b] && [b] + [c] == [b, c];
    assert PrependAll(b, [[]]) == [[b]];
    assert PrependAll(b, [[c]]) == [[b, c]];
  }

  lemma CombosOfOne(c: Loc)
    ensures Combos([c], 0) == [[]] && Combos([c], 1) == [[c]]
    ensures Combos([c], 2) == [] && Combos([c], 3) == []
  {
    assert [c][1..] == [];
    var none: seq<Loc> := [];
    assert Combos(none, 0) == [[]] && Combos(none, 1) == [] && Combos(none, 2) == [];
    assert [c] + [] == [c];
    assert PrependAll(c, [[]]) == [[c]];
  }

  // ---------------------------------------------------------------------
  // Cluster ranking
  // ---------------------------------------------------------------------

  /** Sum of dist(c[i], c[j]) over the i < j < n. */
  function RowSum(c: seq<Loc>, i: nat, n: nat): int
    requires i < |c| && n <= |c|
  {
    if n <= i + 1 then 0 else RowSum(c, i, n - 1) + Dist(c[i], c[n - 1])
  }

  /** Sum of the rows of the pairs whose first element is before i. */
  function PairsBefore(c: seq<Loc>, i: nat): int
    requires i <= |c|
  {
    if i == 0 then 0 else PairsBefore(c, i - 1) + RowSum(c, i - 1, |c|)
  }

  /** The total pairwise distance of a cluster: dist over combinations(combo, 2). */
  function PairSum(c: seq<Loc>): int
  {
    PairsBefore(c, |c|)
  }

  lemma PairSumSmall(a: Loc, b: Loc)
    ensures PairSum([a]) == 0
    ensures PairSum([a, b]) == Dist(a, b)
  {
    assert PairsBefore([a], 1) == PairsBefore([a], 0) + RowSum([a], 0, 1);
    assert RowSum([a, b], 0, 2) == RowSum([a, b], 0, 1) + Dist(a, b);
    assert PairsBefore([a, b], 2) == PairsBefore([a, b], 1) + RowSum([a, b], 1, 2);
    assert PairsBefore([a, b], 1) == PairsBefore([a, b], 0) + RowSum([a, b], 0, 2);
  }

  /** The ranking key (-size, total pairwise distance). */
  function Key(c: seq<Loc>): (int, int)
  {
    (-|c|, PairSum(c))
  }

  /** Python's tuple `<` on two keys. */
  predicate KeyLess(a: (int, int), b: (int, int))
  {
    a.0 < b.0 || (a.0 == b.0 && a.1 < b.1)
  }

  /** The candidate clusters of sizes 1 to r - 1, in the loops' order. */
  function CandidatesUpTo(bridges: seq<Loc>, r: nat): seq<seq<Loc>>
    requires 1 <= r
  {
    if r == 1 then [] else CandidatesUpTo(bridges, r - 1) + Combos(bridges, r - 1)
  }

  function Candidates(bridges: seq<Loc>): seq<seq<Loc>>
  {
    CandidatesUpTo(bridges, 5)
  }

  /**
   * The cluster the loops settle on: a later one replaces the best so far
   * only when its key is strictly smaller.
   */
  function BestOf(cs: seq<seq<Loc>>): (b: Option<seq<Loc>>)
    ensures b.None? <==> cs == []
    ensures b.Some? ==> b.value in cs
  {
    if cs == [] then None
    else
      var prev := BestOf(cs[..|cs| - 1]);
      var c := cs[|cs| - 1];
      if prev.None? || KeyLess(Key(c), Key(prev.value)) then Some(c) else prev
  }

  /** No candidate has a smaller key than the chosen cluster. */
  lemma {:induction false} BestOfIsLeast(cs: seq<seq<Loc>>)
    requires cs != []
    ensures forall c :: c in cs ==> !KeyLess(Key(c), Key(BestOf(cs).value))
  {
    var init := cs[..|cs| - 1];
    var c := cs[|cs| - 1];
    assert cs == init + [c];
    if init != [] {
      BestOfIsLeast(init);
      forall d | d in cs
        ensures !KeyLess(Key(d), Key(BestOf(cs).value))
      {
        if d != c {
          assert d in init;
        }
      }
    }
  }

  /** The chosen cluster is the first candidate with the least key: every earlier one has a larger key. */
  lemma {:induction false} BestOfIsFirst(cs: seq<seq<Loc>>)
    requires cs != []
    ensures exists i ::
      && 0 <= i < |cs| && cs[i] == BestOf(cs).value
      && (forall j :: 0 <= j < i ==> KeyLess(Key(BestOf(cs).value), Key(cs[j])))
  {
    var init := cs[..|cs| - 1];
    var c := cs[|cs| - 1];
    assert cs == init + [c];
    if init != [] {
      var prev := BestOf(init).value;
      if KeyLess(Key(c), Key(prev)) {
        BestOfIsLeast(init);
        forall j | 0 <= j < |cs| - 1
          ensures KeyLess(Key(c), Key(cs[j]))
        {
          assert cs[j] == init[j];
          assert init[j] in init;
        }
        assert cs[|cs| - 1] == BestOf(cs).value;
      } else {
        BestOfIsFirst(init);
        var i :| 0 <= i < |init| && init[i] == prev
          && forall j :: 0 <= j < i ==> KeyLess(Key(prev), Key(init[j]));
        assert cs[i] == prev;
        forall j | 0 <= j < i
          ensures KeyLess(Key(prev), Key(cs[j]))
        {
          assert cs[j] == init[j];
        }
      }
    }
  }

  lemma ConcatMember<T>(a: seq<T>, b: seq<T>, c: T)
    ensures c in a + b <==> c in a || c in b
  {
  }

  /** The candidate list holds exactly the combinations of sizes 1 to r - 1. */
  lemma CandidatesMember(bridges: seq<Loc>, r: nat, c: seq<Loc>)
    requires 1 <= r
    ensures c in CandidatesUpTo(bridges, r) <==> 1 <= |c| < r && c in Combos(bridges, |c|)
  {
    if c in CandidatesUpTo(bridges, r) {
      CandidatesSound(bridges, r, c);
    }
    if 1 <= |c| < r && c in Combos(bridges, |c|) {
      CandidatesComplete(bridges, r, c);
    }
  }

  lemma {:induction false} CandidatesSound(bridges: seq<Loc>, r: nat, c: seq<Loc>)
    requires 1 <= r && c in CandidatesUpTo(bridges, r)
    ensures 1 <= |c| < r && c in Combos(bridges, |c|)
  {
    var prev, last := CandidatesUpTo(bridges, r - 1), Combos(bridges, r - 1);
    ConcatMember(prev, last, c);
    if c in last {
      CombosMember(bridges, r - 1, c);
      assert |c| == r - 1;
    } else {
      assert c in prev;
      CandidatesSound(bridges, r - 1, c);
    }
  }

  lemma {:induction false} CandidatesComplete(bridges: seq<Loc>, r: nat, c: seq<Loc>)
    requires 1 <= |c| < r && c in Combos(bridges, |c|)
    ensures c in CandidatesUpTo(bridges, r)
  {
    var prev, last := CandidatesUpTo(bridges, r - 1), Combos(bridges, r - 1);
    ConcatMember(prev, last, c);
    if |c| < r - 1 {
      CandidatesComplete(bridges, r - 1, c);
    }
  }

  /** With a bridge there is a cluster: one to four of the bridges. */
  lemma BestClusterExists(bridges: seq<Loc>)
    requires bridges != []
    ensures BestOf(Candidates(bridges)).Some?
    ensures var best := BestOf(Candidates(bridges)).value;
      1 <= |best| <= 4 && multiset(best) <= multiset(bridges)
  {
    CombosNonEmpty(bridges, 1);
    var some := Combos(bridges, 1)[0];
    CombosMember(bridges, 1, some);
    CandidatesMember(bridges, 5, some);
    var best := BestOf(Candidates(bridges)).value;
    CandidatesMember(bridges, 5, best);
    CombosMember(bridges, |best|, best);
  }

  /**
   * With at least one bridge the chosen cluster has min(n, 4) bridges, and
   * among the combinations of that size it has the least total pairwise
   * distance.
   */
  lemma BestClusterFacts(bridges: seq<Loc>)
    requires bridges != []
    ensures BestOf(Candidates(bridges)).Some?
    ensures var best := BestOf(Candidates(bridges)).value;
      |best| == Min(|bridges|, 4) && best in Combos(bridges, |best|)
      && forall c :: c in Combos(bridges, |best|) ==> PairSum(best) <= PairSum(c)
  {
    var m := Min(|bridges|, 4);
    var cands := Candidates(bridges);
    CombosNonEmpty(bridges, m);
    var some := Combos(bridges, m)[0];
    CombosMember(bridges, m, some);
    CandidatesMember(bridges, 5, some);
    BestClusterExists(bridges);
    BestOfIsLeast(cands);
    var best := BestOf(cands).value;
    CandidatesMember(bridges, 5, best);
    CombosMember(bridges, |best|, best);
    CombosNonEmpty(bridges, |best|);
    assert !KeyLess(Key(some), Key(best));
    forall c | c in Combos(bridges, m)
      ensures PairSum(best) <= PairSum(c)
    {
      CombosMember(bridges, m, c);
      CandidatesMember(bridges, 5, c);
      assert !KeyLess(Key(c), Key(best));
    }
  }

  /** The total pairwise distance, accumulated pair by pair as the source does. */
  method ClusterDistSum(combo: seq<Loc>) returns (dsum: int)
    ensures dsum == PairSum(combo)
  {
    dsum := 0;
    for i := 0 to |combo|
      invariant dsum == PairsBefore(combo, i)
    {
      for j := i + 1 to |combo|
        invariant dsum == PairsBefore(combo, i) + RowSum(combo, i, j)
      {
        dsum := dsum + Dist(combo[i], combo[j]);
      }
    }
  }

  lemma BestOfSnoc(cs: seq<seq<Loc>>, c: seq<Loc>)
    ensures BestOf(cs + [c])
         == if BestOf(cs).None? || KeyLess(Key(c), Key(BestOf(cs).value)) then Some(c) else BestOf(cs)
  {
    assert (cs + [c])[..|cs|] == cs;
  }

  lemma PrefixSnoc(before: seq<seq<Loc>>, combos: seq<seq<Loc>>, k: nat)
    requires k < |combos|
    ensures before + combos[..k + 1] == (before + combos[..k]) + [combos[k]]
  {
    assert combos[..k + 1] == combos[..k] + [combos[k]];
  }

  /** Step 1 of __next_location: the loops over the sizes and their combinations. */
  method BestCluster(bridges: seq<Loc>) returns (best: Option<seq<Loc>>)
    ensures best == BestOf(Candidates(bridges))
  {
    var bestKey := (0, 0);
    best := None;
    for r := 1 to 5
      invariant best == BestOf(CandidatesUpTo(bridges, r))
      invariant best.Some? ==> bestKey == Key(best.value)
    {
      var combos := Combos(bridges, r);
      best, bestKey := RankCombos(combos, best, bestKey, CandidatesUpTo(bridges, r));
      assert CandidatesUpTo(bridges, r + 1) == CandidatesUpTo(bridges, r) + combos;
    }
  }

  /** The inner loop: each combination of one size, ranked against the best so far. */
  method RankCombos(combos: seq<seq<Loc>>, best0: Option<seq<Loc>>, key0: (int, int), ghost before: seq<seq<Loc>>)
      returns (best: Option<seq<Loc>>, bestKey: (int, int))
    requires best0 == BestOf(before) && (best0.Some? ==> key0 == Key(best0.value))
    ensures best == BestOf(before + combos) && (best.Some? ==> bestKey == Key(best.value))
  {
    best, bestKey := best0, key0;
    ghost var seen := before;
    assert before + combos[..0] == before;
    for k := 0 to |combos|
      invariant seen == before + combos[..k]
      invariant best == BestOf(seen)
      invariant best.Some? ==> bestKey == Key(best.value)
    {
      var dsum := ClusterDistSum(combos[k]);
      var key := (-|combos[k]|, dsum);
      BestOfSnoc(seen, combos[k]);
      PrefixSnoc(before, combos, k);
      seen := seen + [combos[k]];
      if best.None? || KeyLess(key, bestKey) {
        best := Some(combos[k]);
        bestKey := key;
      }
    }
    assert combos[..|combos|] == combos;
  }

  // ---------------------------------------------------------------------
  // The step
  // ---------------------------------------------------------------------

  /** Step 2: the nearest bridge of the best cluster, replaced by Franklin only when Franklin is strictly closer. */
  function PursuitTarget(here: Loc, bridges: seq<Loc>, franklin: Loc): (t: Loc)
    requires bridges != []
    ensures t == franklin || t in bridges
    ensures t != franklin ==> Dist(here, t) <= Dist(here, franklin)
    ensures (forall b :: b in bridges ==> Dist(here, franklin) < Dist(here, b)) ==> t == franklin
  {
    BestClusterExists(bridges);
    var cluster := BestOf(Candidates(bridges)).value;
    var nearest := cluster[FirstNearest(here, cluster)];
    assert nearest in multiset(cluster);
    if Dist(here, franklin) < Dist(here, nearest) then franklin else nearest
  }

  function Sign(d: int): int
  {
    if d > 0 then 1 else if d < 0 then -1 else 0
  }

  /** The shortest signed difference t - a round the torus, in (-W/2, W/2]. */
  function Wrapped(a: int, t: int): (d: int)
    ensures -W / 2 < d <= W / 2
    ensures (a + d - t) % W == 0
  {
    var d := (t - a) % W;
    if d > W / 2 then d - W else d
  }

  /** One coordinate after the step: moved by the sign of the shortest difference, wrapped into [0, W). */
  function AxisNext(a: int, t: int): int
  {
    (a + Sign(Wrapped(a, t))) % W
  }

  /** Step 3: one step along each axis. */
  function StepToward(here: Loc, target: Loc): Loc
  {
    Cell(AxisNext(here.x, target.x), AxisNext(here.y, target.y))
  }

  /** __next_location as a value. */
  function Pursue(here: Loc, bridges: seq<Loc>, franklin: Loc): Loc
    requires bridges != []
  {
    StepToward(here, PursuitTarget(here, bridges, franklin))
  }

  /**
   * One axis: the step moves at most one cell, and brings an in-bounds
   * coordinate one closer round the torus unless it is already there.
   */
  lemma AxisStep(a: int, t: int)
    requires 0 <= a < W && 0 <= t < W
    ensures 0 <= AxisNext(a, t) < W && 0 <= AxisDist(AxisNext(a, t) - a) <= 1
    ensures 0 <= AxisDist(a - t) && (AxisDist(a - t) == 0 <==> a == t)
    ensures AxisDist(AxisNext(a, t) - t) == (if a == t then 0 else AxisDist(a - t) - 1)
  {
    var d := Wrapped(a, t);
    if t >= a {
      assert (t - a) % W == t - a;
    } else {
      assert (t - a) % W == t - a + W;
    }
  }

  /** The larger of two axis distances drops by one when each nonzero one does. */
  lemma MaxStep(px: int, py: int, qx: int, qy: int)
    requires 0 <= px && 0 <= py
    requires qx == (if px == 0 then 0 else px - 1) && qy == (if py == 0 then 0 else py - 1)
    ensures Max(qx, qy) == (if px == 0 && py == 0 then 0 else Max(px, py) - 1)
  {
  }

  /** __next_location returns an in-bounds cell next to (or on) Galactus's cell. */
  lemma StepStaysNear(here: Loc, target: Loc)
    requires InBounds(here) && InBounds(target)
    ensures InBounds(StepToward(here, target)) && StepToward(here, target).range == 0
    ensures Dist(StepToward(here, target), here) <= 1
  {
    AxisStep(here.x, target.x);
    AxisStep(here.y, target.y);
  }

  /** When Galactus is not on the target, the step brings it exactly one closer. */
  lemma StepCloser(here: Loc, target: Loc)
    requires InBounds(here) && InBounds(target)
    ensures Dist(StepToward(here, target), target) == (if SameCell(here, target) then 0 else Dist(here, target) - 1)
  {
    AxisStep(here.x, target.x);
    AxisStep(here.y, target.y);
    CloserByAxes(here, target, AxisNext(here.x, target.x), AxisNext(here.y, target.y));
  }

  /** The distance drops by one when each axis distance that is not zero does. */
  lemma CloserByAxes(here: Loc, target: Loc, nx: int, ny: int)
    requires 0 <= AxisDist(here.x - target.x) && (AxisDist(here.x - target.x) == 0 <==> here.x == target.x)
    requires 0 <= AxisDist(here.y - target.y) && (AxisDist(here.y - target.y) == 0 <==> here.y == target.y)
    requires AxisDist(nx - target.x) == (if here.x == target.x then 0 else AxisDist(here.x - target.x) - 1)
    requires AxisDist(ny - target.y) == (if here.y == target.y then 0 else AxisDist(here.y - target.y) - 1)
    ensures Dist(Cell(nx, ny), target) == (if SameCell(here, target) then 0 else Dist(here, target) - 1)
  {
    var px, py := AxisDist(here.x - target.x), AxisDist(here.y - target.y);
    var qx, qy := AxisDist(nx - target.x), AxisDist(ny - target.y);
    assert Dist(here, target) == Max(px, py);
    assert Dist(Cell(nx, ny), target) == Max(qx, qy);
    MaxStep(px, py, qx, qy);
  }

  /** The one-step pursuit: towards Franklin when strictly closer, otherwise the nearest bridge of the best cluster. */
  lemma PursueFacts(here: Loc, bridges: seq<Loc>, franklin: Loc)
    requires bridges != [] && InBounds(here) && InBounds(franklin)
    requires forall b :: b in bridges ==> InBounds(b)
    ensures var t := PursuitTarget(here, bridges, franklin);
      var n := Pursue(here, bridges, franklin);
      InBounds(n) && Dist(n, here) <= 1
      && Dist(n, t) == (if SameCell(here, t) then 0 else Dist(here, t) - 1)
  {
    StepStaysNear(here, PursuitTarget(here, bridges, franklin));
    StepCloser(here, PursuitTarget(here, bridges, franklin));
  }

  /** __next_location, with its loops. */
  method NextLocation(here: Loc, bridges: seq<Loc>, franklin: Loc) returns (next: Loc)
    requires bridges != []
    ensures next == Pursue(here, bridges, franklin)
  {
    var best := BestCluster(bridges);
    BestClusterExists(bridges);
    var cluster := best.value;
    var nearest := cluster[FirstNearest(here, cluster)];
    if Dist(here, franklin) < Dist(here, nearest) {
      nearest := franklin;
    }
    next := Step(here, nearest);
  }

  /** Step 3 of __next_location: the wrapped differences, their signs, the new coordinates. */
  method Step(here: Loc, target: Loc) returns (next: Loc)
    ensures next == StepToward(here, target)
  {
    var m := W;
    var dx := (target.x - here.x) % m;
    if dx > m / 2 {
      dx := dx - m;
    }
    var dy := (target.y - here.y) % m;
    if dy > m / 2 {
      dy := dy - m;
    }
    var stepX := Sign(dx);
    var stepY := Sign(dy);
    next := Cell((here.x + stepX) % m, (here.y + stepY) % m);
  }

  // ---------------------------------------------------------------------
  // actions
  // ---------------------------------------------------------------------

  /** The occupants of role FRANKLIN, in row-major order. */
  function FranklinsSeen(v: View): seq<Seen>
  {
    OfRole(Flatten(v), Franklin)
  }

  /** When a Franklin is on the grid, __next_location needs a bridge and every location read. */
  predicate GalactusReady(v: View)
  {
    FranklinsSeen(v) != [] ==>
      FranklinsSeen(v)[0].location.Some? && Bridges(v) != [] && Located(Bridges(v))
  }

  /**
   * The list Galactus.actions returns: one Move, towards the pursuit step
   * when a Franklin is on the grid, otherwise onto the neighbour `pick`
   * (mod 8) chosen in place of random.choice; its range is Galactus's own.
   */
  function GalactusRules(me: Agent, here: Loc, v: View, pick: nat): seq<Action>
    requires InBounds(here) && GalactusReady(v)
  {
    [Move(GalactusNext(here, v, pick).(range := here.range), me, false)]
  }

  /** The cell Galactus moves to: the pursuit step when a Franklin is on the grid, otherwise a neighbour. */
  function GalactusNext(here: Loc, v: View, pick: nat): Loc
    requires GalactusReady(v)
  {
    var fs := FranklinsSeen(v);
    if fs == [] then Neighbour(here, pick) else Pursue(here, LocsOf(Bridges(v)), fs[0].location.value)
  }

  /** random.choice over the neighbours, with the index supplied by the caller. */
  function Neighbour(here: Loc, pick: nat): Loc
  {
    var locs := Adjacent(here, 1);
    if locs == [] then here else locs[pick % |locs|]
  }

  /** Galactus.actions. */
  method GalactusActions(me: Agent, env: Earth, pick: nat) returns (acts: seq<Action>)
    requires env.Valid() && me.location.Some? && InBounds(me.location.value)
    requires GalactusReady(env.View())
    ensures acts == GalactusRules(me, old(me.location.value), old(env.View()), pick)
  {
    ghost var v := env.View();
    label L:
    var here := me.location.value;
    var view := env.View();
    var franklin := FranklinsSeen(view);
    var moveLoc;
    if |franklin| == 0 {
      var locs := env.GetAdjacentLocations(here, 1);
      AdjacentFacts(here, 1);
      moveLoc := locs[pick % |locs|];
      assert moveLoc == Neighbour(here, pick);
    } else {
      var bridges := LocsOf(Bridges(view));
      moveLoc := NextLocation(here, bridges, franklin[0].location.value);
    }
    moveLoc := moveLoc.(range := here.range);
    acts := [Move(moveLoc, me, false)];
    assert unchanged@L(env) && unchanged@L(me);
    ViewKept@L(env);
  }

  /**
   * Galactus's next cell: in bounds and at most one step from its own; a
   * neighbour at distance 1 when no Franklin is on the grid; otherwise one
   * closer to the pursuit target unless Galactus is on it.
   */
  lemma GalactusNextFacts(here: Loc, v: View, pick: nat)
    requires InBounds(here) && GalactusReady(v)
    requires forall o :: o in Bridges(v) ==> o.location.Some? && InBounds(o.location.value)
    requires FranklinsSeen(v) != [] ==> InBounds(FranklinsSeen(v)[0].location.value)
    ensures InBounds(GalactusNext(here, v, pick)) && Dist(GalactusNext(here, v, pick), here) <= 1
    ensures FranklinsSeen(v) == [] ==> Dist(GalactusNext(here, v, pick), here) == 1
    ensures FranklinsSeen(v) != [] ==>
      var t := PursuitTarget(here, LocsOf(Bridges(v)), FranklinsSeen(v)[0].location.value);
      Dist(GalactusNext(here, v, pick), t) == (if SameCell(here, t) then 0 else Dist(here, t) - 1)
  {
    var fs := FranklinsSeen(v);
    if fs == [] {
      NeighbourFacts(here, pick);
    } else {
      var bs := LocsOf(Bridges(v));
      LocsInBounds(Bridges(v));
      PursueFacts(here, bs, fs[0].location.value);
    }
  }

  /** The neighbour chosen in place of random.choice is an in-bounds cell at distance 1. */
  lemma NeighbourFacts(here: Loc, pick: nat)
    requires InBounds(here)
    ensures InBounds(Neighbour(here, pick)) && Dist(Neighbour(here, pick), here) == 1
  {
    AdjacentFacts(here, 1);
    assert Neighbour(here, pick) in Adjacent(here, 1);
  }

  lemma LocsInBounds(s: seq<Seen>)
    requires forall o :: o in s ==> o.location.Some? && InBounds(o.location.value)
    ensures Located(s) && forall l :: l in LocsOf(s) ==> InBounds(l)
  {
    forall l | l in LocsOf(s)
      ensures InBounds(l)
    {
      var i :| 0 <= i < |s| && LocsOf(s)[i] == l;
      assert s[i] in s;
    }
  }

  /** The steps the Galactus tests expect, and the wrap at the edge. */
  lemma StepExamples()
    ensures StepToward(Cell(10, 10), Cell(8, 8)) == Cell(9, 9)
    ensures StepToward(Cell(0, 0), Cell(29, 29)) == Cell(29, 29)
    ensures StepToward(Cell(0, 0), Cell(15, 14)) == Cell(1, 1)
  {
  }

  /**
   * The setting of the Galactus tests: bridges at (5, 5), (15, 5), (5, 15)
   * and (15, 15), Franklin at (8, 8) and Galactus at (10, 10). Franklin is
   * closer than every bridge, so Galactus steps to (9, 9).
   */
  lemma PursuitExample()
    ensures Pursue(Cell(10, 10), [Cell(5, 5), Cell(15, 5), Cell(5, 15), Cell(15, 15)], Cell(8, 8)) == Cell(9, 9)
  {
    var here, f := Cell(10, 10), Cell(8, 8);
    var bs := [Cell(5, 5), Cell(15, 5), Cell(5, 15), Cell(15, 15)];
    assert Dist(here, f) == 2;
    assert Dist(here, bs[0]) == 5 && Dist(here, bs[1]) == 5 && Dist(here, bs[2]) == 5 && Dist(here, bs[3]) == 5;
    forall b | b in bs
      ensures Dist(here, f) < Dist(here, b)
    {
    }
    assert PursuitTarget(here, bs, f) == f;
    StepExamples();
  }
}

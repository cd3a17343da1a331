/**
 * The A* search `find_path` of tiles.py.
 *
 * The search keeps a queue of cells to look at, a set of visited cells, the
 * (g, h) costs of every cell it has reached and the parent through which
 * each cell was last reached. It stops once the goal is visited or the
 * queue is empty, then follows parents back from the goal. For every cost
 * and heuristic the answer is empty exactly when no walk leads from start to
 * the goal, and otherwise a walk from start to the goal. When costs are
 * non-negative and the heuristic is consistent (it never drops by more than
 * the cost of the step taken, as the Manhattan distance does for costs of at
 * least 1) that walk is a cheapest one; with unit costs it is a shortest one.
 */
module PathFinding {
  import opened Helper
  import opened Wrappers
  import opened Tiles
  import opened PriorityQueue
  import opened TileSearch

  /** `list.reverse()`. */
  function Reverse(s: seq<Pos>): (r: seq<Pos>)
    ensures |r| == |s|
    ensures forall i :: 0 <= i < |s| ==> r[i] == s[|s| - 1 - i]
    decreases |s|
  {
    if s == [] then [] else Reverse(s[1..]) + [s[0]]
  }

  /** Reversing after appending x puts x in front. */
  lemma ReverseSnoc(s: seq<Pos>, x: Pos)
    ensures Reverse(s + [x]) == [x] + Reverse(s)
  {
    assert forall i :: 0 <= i < |s| + 1 ==> Reverse(s + [x])[i] == ([x] + Reverse(s))[i];
  }

  /** A walk that a neighbour of its first cell is put in front of is a walk. */
  lemma WalkPrepend(g: TileMap, passable: Pos -> bool, a: Pos, w: seq<Pos>)
    requires IsWalk(g, passable, w) && Step(g, passable, a, w[0])
    ensures IsWalk(g, passable, [a] + w)
  {
    var v := [a] + w;
    forall i {:trigger v[i]} | 0 <= i < |v| - 1
      ensures Step(g, passable, v[i], v[i + 1])
    {
      if i > 0 {
        assert v[i] == w[i - 1] && v[i + 1] == w[i];
      }
    }
  }

  // ---------------------------------------------------------------- search bookkeeping

  /** Visited and queued cells are disjoint cells of the universe, and each has recorded costs. */
  ghost predicate SearchFrame(universe: set<Pos>, visited: set<Pos>, queued: set<Pos>,
                              costs: map<Pos, (real, real)>)
  {
    visited !! queued && visited + queued <= universe && visited + queued <= costs.Keys
  }

  /** Before the first pop only start is queued; afterwards start is visited. */
  ghost predicate StartFirst(start: Pos, visited: set<Pos>, queued: set<Pos>)
  {
    (visited == {} ==> queued == {start}) && (visited != {} ==> start in visited)
  }

  /**
   * Every cell but start that was reached has a parent; a parent is a
   * visited cell one step before its child, and was visited before it.
   * order numbers the visited cells in the order they were popped.
   */
  ghost predicate ParentLinks(g: TileMap, passable: Pos -> bool, start: Pos, visited: set<Pos>,
                              queued: set<Pos>, parents: map<Pos, Pos>, order: map<Pos, nat>, time: nat)
  {
    order.Keys == visited &&
    (forall v :: v in order ==> order[v] < time) &&
    (forall n {:trigger parents[n]} ::
       n in parents ==> n != start && parents[n] in order && Step(g, passable, parents[n], n)) &&
    (forall n {:trigger parents[n]} :: n in parents && n in order ==> order[parents[n]] < order[n]) &&
    (forall n :: (n in visited || n in queued) && n != start ==> n in parents)
  }

  /** The bookkeeping of `find_path` between steps. */
  ghost predicate SearchState(g: TileMap, passable: Pos -> bool, start: Pos, universe: set<Pos>,
                              visited: set<Pos>, queued: set<Pos>, costs: map<Pos, (real, real)>,
                              parents: map<Pos, Pos>, order: map<Pos, nat>, time: nat)
  {
    SearchFrame(universe, visited, queued, costs) &&
    StartFirst(start, visited, queued) &&
    ParentLinks(g, passable, start, visited, queued, parents, order, time)
  }

  /** Every passable neighbour of a visited cell outside skip is visited or queued. */
  ghost predicate Explored(g: TileMap, passable: Pos -> bool, visited: set<Pos>, queued: set<Pos>, skip: set<Pos>)
  {
    forall v, n :: v in visited && v !in skip && Step(g, passable, v, n) ==> n in visited || n in queued
  }

  /** The bookkeeping of the search loop: every visited cell is explored. */
  ghost predicate SearchInv(g: TileMap, passable: Pos -> bool, start: Pos, universe: set<Pos>,
                            visited: set<Pos>, queued: set<Pos>, costs: map<Pos, (real, real)>,
                            parents: map<Pos, Pos>, order: map<Pos, nat>, time: nat)
  {
    SearchState(g, passable, start, universe, visited, queued, costs, parents, order, time) &&
    Explored(g, passable, visited, queued, {})
  }

  /** The bookkeeping of the neighbour loop after looking at the first i neighbours of cur. */
  ghost predicate ExploreInv(g: TileMap, passable: Pos -> bool, start: Pos, universe: set<Pos>,
                             visited: set<Pos>, queued: set<Pos>, costs: map<Pos, (real, real)>,
                             parents: map<Pos, Pos>, order: map<Pos, nat>, time: nat,
                             cur: Pos, ns: seq<Pos>, i: int)
  {
    0 <= i <= |ns| && cur in visited &&
    SearchState(g, passable, start, universe, visited, queued, costs, parents, order, time)
  }

  // ---------------------------------------------------------------- one step at a time

  lemma LinksPop(g: TileMap, passable: Pos -> bool, start: Pos, visited: set<Pos>, queued: set<Pos>,
                 parents: map<Pos, Pos>, order: map<Pos, nat>, time: nat, cur: Pos)
    requires ParentLinks(g, passable, start, visited, queued, parents, order, time)
    requires cur in queued && cur !in visited
    ensures ParentLinks(g, passable, start, visited + {cur}, queued - {cur}, parents, order[cur := time], time + 1)
  {
    var order' := order[cur := time];
    forall n | n in parents && n in order'
      ensures order'[parents[n]] < order'[n]
    {
      assert parents[n] != cur;
    }
  }

  lemma ExploredPop(g: TileMap, passable: Pos -> bool, visited: set<Pos>, queued: set<Pos>, cur: Pos)
    requires Explored(g, passable, visited, queued, {})
    ensures Explored(g, passable, visited + {cur}, queued - {cur}, {cur})
  {
  }

  /** Popping a queued cell and visiting it keeps the bookkeeping. */
  lemma SearchPop(g: TileMap, passable: Pos -> bool, start: Pos, universe: set<Pos>,
                  visited: set<Pos>, queued: set<Pos>, costs: map<Pos, (real, real)>,
                  parents: map<Pos, Pos>, order: map<Pos, nat>, time: nat, cur: Pos)
    requires SearchInv(g, passable, start, universe, visited, queued, costs, parents, order, time)
    requires cur in queued
    ensures SearchState(g, passable, start, universe, visited + {cur}, queued - {cur}, costs, parents,
                        order[cur := time], time + 1)
    ensures Explored(g, passable, visited + {cur}, queued - {cur}, {cur})
  {
    if visited == {} {
      assert cur == start;
    }
    LinksPop(g, passable, start, visited, queued, parents, order, time, cur);
    ExploredPop(g, passable, visited, queued, cur);
  }

  lemma FrameAdd(universe: set<Pos>, visited: set<Pos>, queued: set<Pos>, costs: map<Pos, (real, real)>,
                 n: Pos, gh: (real, real))
    requires SearchFrame(universe, visited, queued, costs) && n !in visited && n in universe
    ensures SearchFrame(universe, visited, queued + {n}, costs[n := gh])
  {
  }

  lemma FrameLower(universe: set<Pos>, visited: set<Pos>, queued: set<Pos>, costs: map<Pos, (real, real)>,
                   n: Pos, gh: (real, real))
    requires SearchFrame(universe, visited, queued, costs)
    ensures SearchFrame(universe, visited, queued, costs[n := gh])
  {
  }

  /** cur becomes the parent of its unvisited neighbour n, which is queued (or stays queued). */
  lemma LinksSet(g: TileMap, passable: Pos -> bool, start: Pos, visited: set<Pos>, queued: set<Pos>,
                 parents: map<Pos, Pos>, order: map<Pos, nat>, time: nat, cur: Pos, n: Pos)
    requires ParentLinks(g, passable, start, visited, queued, parents, order, time)
    requires cur in visited && start in visited && n !in visited && Step(g, passable, cur, n)
    ensures ParentLinks(g, passable, start, visited, queued + {n}, parents[n := cur], order, time)
    ensures ParentLinks(g, passable, start, visited, queued, parents[n := cur], order, time)
  {
  }



  /** Queuing a passable neighbour of cur for the first time, with cur as its parent. */
  lemma ExploreAdd(g: TileMap, passable: Pos -> bool, start: Pos, universe: set<Pos>,
                   visited: set<Pos>, queued: set<Pos>, costs: map<Pos, (real, real)>,
                   parents: map<Pos, Pos>, order: map<Pos, nat>, time: nat,
                   cur: Pos, ns: seq<Pos>, i: int, gh: (real, real))
    requires ExploreInv(g, passable, start, universe, visited, queued, costs, parents, order, time, cur, ns, i)
    requires g.Cells() <= universe && ns == g.Neighbours(cur) && i < |ns|
    requires ns[i] !in visited && passable(ns[i])
    ensures ExploreInv(g, passable, start, universe, visited, queued + {ns[i]}, costs[ns[i] := gh],
                       parents[ns[i] := cur], order, time, cur, ns, i + 1)
  {
    var n := ns[i];
    g.NeighboursAdjacent(cur, n);
    assert n in g.Cells();
    FrameAdd(universe, visited, queued, costs, n, gh);
    LinksSet(g, passable, start, visited, queued, parents, order, time, cur, n);
  }

  /** Giving a queued neighbour of cur the new parent cur. */
  lemma ExploreLower(g: TileMap, passable: Pos -> bool, start: Pos, universe: set<Pos>,
                     visited: set<Pos>, queued: set<Pos>, costs: map<Pos, (real, real)>,
                     parents: map<Pos, Pos>, order: map<Pos, nat>, time: nat,
                     cur: Pos, ns: seq<Pos>, i: int, gh: (real, real))
    requires ExploreInv(g, passable, start, universe, visited, queued, costs, parents, order, time, cur, ns, i)
    requires ns == g.Neighbours(cur) && i < |ns|
    requires ns[i] !in visited && passable(ns[i]) && ns[i] in queued
    ensures ExploreInv(g, passable, start, universe, visited, queued, costs[ns[i] := gh],
                       parents[ns[i] := cur], order, time, cur, ns, i + 1)
  {
    var n := ns[i];
    g.NeighboursAdjacent(cur, n);
    FrameLower(universe, visited, queued, costs, n, gh);
    LinksSet(g, passable, start, visited, queued, parents, order, time, cur, n);
  }

  /** A neighbour that is visited, impassable or already queued needs nothing. */
  lemma ExploreSkip(g: TileMap, passable: Pos -> bool, start: Pos, universe: set<Pos>,
                    visited: set<Pos>, queued: set<Pos>, costs: map<Pos, (real, real)>,
                    parents: map<Pos, Pos>, order: map<Pos, nat>, time: nat,
                    cur: Pos, ns: seq<Pos>, i: int)
    requires ExploreInv(g, passable, start, universe, visited, queued, costs, parents, order, time, cur, ns, i)
    requires i < |ns| && (ns[i] in visited || !passable(ns[i]) || ns[i] in queued)
    ensures ExploreInv(g, passable, start, universe, visited, queued, costs, parents, order, time, cur, ns, i + 1)
  {
  }

  /** When nothing is queued and every visited cell is explored, every walk from start ends visited. */
  lemma {:induction false} WalkStaysVisited(g: TileMap, passable: Pos -> bool, start: Pos,
                                            visited: set<Pos>, w: seq<Pos>)
    requires start in visited && Explored(g, passable, visited, {}, {})
    requires IsWalk(g, passable, w) && w[0] == start
    ensures Last(w) in visited
    decreases |w|
  {
    if |w| > 1 {
      var u := w[..|w| - 1];
      WalkPrefix(g, passable, (p: Pos) => 0.0, w);
      WalkStaysVisited(g, passable, start, visited, u);
    }
  }

  /** When the search runs dry before visiting end, no walk leads from start to end. */
  lemma NoWalk(g: TileMap, passable: Pos -> bool, start: Pos, end: Pos, visited: set<Pos>)
    requires start in visited && Explored(g, passable, visited, {}, {}) && end !in visited
    ensures !Connected(g, passable, start, end)
  {
    forall w | WalkFromTo(g, passable, w, start, end)
      ensures false
    {
      WalkStaysVisited(g, passable, start, visited, w);
    }
  }

  // ---------------------------------------------------------------- cheapest paths

  /**
   * Costs are non-negative and the heuristic's estimate for end never drops
   * by more than the cost of leaving a cell for a grid neighbour.
   */
  ghost predicate ConsistentHeuristic(cost: Pos -> real, heuristic: (Pos, Pos) -> real, end: Pos)
  {
    NonNegative(cost) &&
    forall a, b :: Adjacent(a, b) ==> heuristic(a, end) <= cost(a) + heuristic(b, end)
  }

  /** `manhattan_dist` on cells: the default heuristic of `find_path`. */
  function Manhattan(): (Pos, Pos) -> real
  {
    (a: Pos, b: Pos) => ManhattanDist(ToPoint(a), ToPoint(b))
  }

  /** With costs of at least 1 the Manhattan distance is a consistent heuristic. */
  lemma ManhattanConsistent(cost: Pos -> real, end: Pos)
    requires forall p :: cost(p) >= 1.0
    ensures ConsistentHeuristic(cost, Manhattan(), end)
  {
    forall a, b | Adjacent(a, b)
      ensures Manhattan()(a, end) <= cost(a) + Manhattan()(b, end)
    {
      assert Manhattan()(a, end) <= 1.0 + Manhattan()(b, end);
    }
  }

  /** No walk from start to end costs less than w. */
  ghost predicate Cheapest(g: TileMap, passable: Pos -> bool, cost: Pos -> real, w: seq<Pos>, start: Pos, end: Pos)
  {
    forall v :: WalkFromTo(g, passable, v, start, end) ==> WalkCost(cost, w) <= WalkCost(cost, v)
  }

  lemma {:induction false} WalkCostNonNegative(cost: Pos -> real, w: seq<Pos>)
    requires NonNegative(cost)
    ensures WalkCost(cost, w) >= 0.0
    decreases |w|
  {
    if |w| > 1 {
      WalkCostNonNegative(cost, w[1..]);
    }
  }

  /** With unit costs a walk costs its number of steps. */
  lemma {:induction false} UnitWalkCost(cost: Pos -> real, w: seq<Pos>)
    requires |w| > 0 && forall p :: cost(p) == 1.0
    ensures WalkCost(cost, w) == (|w| - 1) as real
    decreases |w|
  {
    if |w| > 1 {
      UnitWalkCost(cost, w[1..]);
    }
  }

  /** With unit costs a cheapest walk is a shortest one. */
  lemma CheapestIsShortest(g: TileMap, passable: Pos -> bool, cost: Pos -> real, w: seq<Pos>, start: Pos, end: Pos)
    requires |w| > 0 && forall p :: cost(p) == 1.0
    requires Cheapest(g, passable, cost, w, start, end)
    ensures forall v :: WalkFromTo(g, passable, v, start, end) ==> |w| <= |v|
  {
    forall v | WalkFromTo(g, passable, v, start, end)
      ensures |w| <= |v|
    {
      UnitWalkCost(cost, w);
      UnitWalkCost(cost, v);
    }
  }

  /** Every recorded h is the heuristic's; once a cell is visited, a queued cell's priority is its g + h. */
  ghost predicate Priced(heuristic: (Pos, Pos) -> real, end: Pos, visited: set<Pos>, items: map<Pos, real>,
                         costs: map<Pos, (real, real)>)
  {
    (forall n :: n in costs ==> costs[n].1 == heuristic(n, end)) &&
    (visited != {} ==> forall n :: n in items && n in costs ==> items[n] == costs[n].0 + costs[n].1)
  }

  /** start's g is 0, and a cell with a parent costs its parent's g plus the cost of leaving the parent. */
  ghost predicate Chained(cost: Pos -> real, start: Pos, parents: map<Pos, Pos>, costs: map<Pos, (real, real)>)
  {
    start in costs && costs[start].0 == 0.0 &&
    forall n {:trigger parents[n]} :: n in parents ==>
      n in costs && parents[n] in costs && costs[n].0 == costs[parents[n]].0 + cost(parents[n])
  }

  /**
   * Every passable, unvisited neighbour of a visited cell outside skip is
   * queued, with a g no more than one step past that cell's.
   */
  ghost predicate Bounded(g: TileMap, passable: Pos -> bool, cost: Pos -> real, visited: set<Pos>,
                          items: map<Pos, real>, costs: map<Pos, (real, real)>, skip: set<Pos>)
  {
    forall v, n :: v in visited && v !in skip && Step(g, passable, v, n) && n !in visited ==>
      n in items && n in costs && v in costs && costs[n].0 <= costs[v].0 + cost(v)
  }

  /** Bounded for the first i neighbours ns of the cell cur being expanded. */
  ghost predicate PartlyBounded(passable: Pos -> bool, cost: Pos -> real, visited: set<Pos>, items: map<Pos, real>,
                                costs: map<Pos, (real, real)>, cur: Pos, ns: seq<Pos>, i: int)
    requires 0 <= i <= |ns|
  {
    forall j :: 0 <= j < i && passable(ns[j]) && ns[j] !in visited ==>
      ns[j] in items && ns[j] in costs && cur in costs && costs[ns[j]].0 <= costs[cur].0 + cost(cur)
  }

  /** The g of a visited cell is no more than the cost of any walk from start to it. */
  ghost predicate Optimal(g: TileMap, passable: Pos -> bool, cost: Pos -> real, start: Pos, visited: set<Pos>,
                          costs: map<Pos, (real, real)>)
  {
    forall v, w :: v in visited && WalkFromTo(g, passable, w, start, v) ==>
      v in costs && costs[v].0 <= WalkCost(cost, w)
  }

  /** The cost bookkeeping of the search; visited cells are at their cheapest under a consistent heuristic. */
  ghost predicate CostInv(g: TileMap, passable: Pos -> bool, cost: Pos -> real, heuristic: (Pos, Pos) -> real,
                          start: Pos, end: Pos, visited: set<Pos>, items: map<Pos, real>,
                          costs: map<Pos, (real, real)>, parents: map<Pos, Pos>, skip: set<Pos>)
  {
    Priced(heuristic, end, visited, items, costs) &&
    Chained(cost, start, parents, costs) &&
    Bounded(g, passable, cost, visited, items, costs, skip) &&
    (ConsistentHeuristic(cost, heuristic, end) ==> Optimal(g, passable, cost, start, visited, costs))
  }

  /**
   * Under a consistent heuristic, a walk from start to z ends visited or
   * some queued cell's priority is at most the walk's cost plus z's estimate.
   */
  lemma {:induction false} Frontier(g: TileMap, passable: Pos -> bool, cost: Pos -> real,
                                    heuristic: (Pos, Pos) -> real, start: Pos, end: Pos, visited: set<Pos>,
                                    items: map<Pos, real>, costs: map<Pos, (real, real)>, w: seq<Pos>, z: Pos)
    requires ConsistentHeuristic(cost, heuristic, end) && start in visited
    requires Priced(heuristic, end, visited, items, costs)
    requires Bounded(g, passable, cost, visited, items, costs, {})
    requires Optimal(g, passable, cost, start, visited, costs)
    requires WalkFromTo(g, passable, w, start, z)
    ensures z in visited || exists y :: y in items && items[y] <= WalkCost(cost, w) + heuristic(z, end)
    decreases |w|
  {
    if |w| > 1 && z !in visited {
      var u := w[..|w| - 1];
      var x := Last(u);
      WalkPrefix(g, passable, cost, w);
      assert WalkFromTo(g, passable, u, start, x);
      if x in visited {
        assert items[z] <= WalkCost(cost, w) + heuristic(z, end);
      } else {
        Frontier(g, passable, cost, heuristic, start, end, visited, items, costs, u, x);
        var y :| y in items && items[y] <= WalkCost(cost, u) + heuristic(x, end);
        assert heuristic(x, end) <= cost(x) + heuristic(z, end);
      }
    }
  }

  /** The cell popped with the smallest priority is at its cheapest. */
  lemma OptimalPop(g: TileMap, passable: Pos -> bool, cost: Pos -> real, heuristic: (Pos, Pos) -> real,
                   start: Pos, end: Pos, visited: set<Pos>, items: map<Pos, real>,
                   costs: map<Pos, (real, real)>, parents: map<Pos, Pos>, cur: Pos)
    requires ConsistentHeuristic(cost, heuristic, end)
    requires CostInv(g, passable, cost, heuristic, start, end, visited, items, costs, parents, {})
    requires StartFirst(start, visited, items.Keys)
    requires cur in items && cur in costs && cur !in visited
    requires forall y :: y in items ==> items[cur] <= items[y]
    ensures Optimal(g, passable, cost, start, visited + {cur}, costs)
  {
    forall v, w | v in visited + {cur} && WalkFromTo(g, passable, w, start, v)
      ensures v in costs && costs[v].0 <= WalkCost(cost, w)
    {
      if v !in visited {
        if visited == {} {
          WalkCostNonNegative(cost, w);
        } else {
          Frontier(g, passable, cost, heuristic, start, end, visited, items, costs, w, cur);
          var y :| y in items && items[y] <= WalkCost(cost, w) + heuristic(cur, end);
        }
      }
    }
  }

  /** Popping the queued cell cur with the smallest priority keeps the cost bookkeeping. */
  lemma CostPop(g: TileMap, passable: Pos -> bool, cost: Pos -> real, heuristic: (Pos, Pos) -> real,
                start: Pos, end: Pos, visited: set<Pos>, items: map<Pos, real>,
                costs: map<Pos, (real, real)>, parents: map<Pos, Pos>, cur: Pos)
    requires CostInv(g, passable, cost, heuristic, start, end, visited, items, costs, parents, {})
    requires StartFirst(start, visited, items.Keys)
    requires cur in items && cur in costs && cur !in visited
    requires forall y :: y in items ==> items[cur] <= items[y]
    ensures CostInv(g, passable, cost, heuristic, start, end, visited + {cur}, items - {cur}, costs, parents,
                    {cur})
  {
    if ConsistentHeuristic(cost, heuristic, end) {
      OptimalPop(g, passable, cost, heuristic, start, end, visited, items, costs, parents, cur);
    }
    if visited == {} {
      assert items.Keys == {cur};
      assert (items - {cur}).Keys == {};
    }
  }

  /** cur's unvisited, passable neighbour n gets g = g(cur) + cost(cur), h, priority g + h and parent cur. */
  lemma CostSet(g: TileMap, passable: Pos -> bool, cost: Pos -> real, heuristic: (Pos, Pos) -> real,
                start: Pos, end: Pos, visited: set<Pos>, items: map<Pos, real>,
                costs: map<Pos, (real, real)>, parents: map<Pos, Pos>, cur: Pos, ns: seq<Pos>, i: int,
                gn: real, hn: real)
    requires 0 <= i < |ns| && cur in visited && start in visited && cur in costs
    requires forall m :: m in parents ==> parents[m] in visited
    requires CostInv(g, passable, cost, heuristic, start, end, visited, items, costs, parents, {cur})
    requires PartlyBounded(passable, cost, visited, items, costs, cur, ns, i)
    requires ns[i] !in visited && passable(ns[i])
    requires gn == costs[cur].0 + cost(cur) && hn == heuristic(ns[i], end)
    requires ns[i] in items ==> ns[i] in costs && gn < costs[ns[i]].0
    ensures CostInv(g, passable, cost, heuristic, start, end, visited, items[ns[i] := gn + hn],
                    costs[ns[i] := (gn, hn)], parents[ns[i] := cur], {cur})
    ensures PartlyBounded(passable, cost, visited, items[ns[i] := gn + hn], costs[ns[i] := (gn, hn)], cur, ns, i + 1)
  {
  }

  /** A neighbour that is visited, impassable or queued no dearer than through cur needs nothing. */
  lemma CostSkip(passable: Pos -> bool, cost: Pos -> real, visited: set<Pos>, items: map<Pos, real>,
                 costs: map<Pos, (real, real)>, cur: Pos, ns: seq<Pos>, i: int)
    requires 0 <= i < |ns| && PartlyBounded(passable, cost, visited, items, costs, cur, ns, i)
    requires ns[i] in visited || !passable(ns[i]) ||
             (ns[i] in items && ns[i] in costs && cur in costs && costs[ns[i]].0 <= costs[cur].0 + cost(cur))
    ensures PartlyBounded(passable, cost, visited, items, costs, cur, ns, i + 1)
  {
  }

  /** A cell left unvisited next to a visited one is queued, so the queue bounds the visited region. */
  lemma BoundedExplored(g: TileMap, passable: Pos -> bool, cost: Pos -> real, visited: set<Pos>,
                        items: map<Pos, real>, costs: map<Pos, (real, real)>, skip: set<Pos>)
    requires Bounded(g, passable, cost, visited, items, costs, skip)
    ensures Explored(g, passable, visited, items.Keys, skip)
  {
  }

  /** Once all its neighbours are looked at, cur is bounded too. */
  lemma CostClose(g: TileMap, passable: Pos -> bool, cost: Pos -> real, heuristic: (Pos, Pos) -> real,
                  start: Pos, end: Pos, visited: set<Pos>, items: map<Pos, real>,
                  costs: map<Pos, (real, real)>, parents: map<Pos, Pos>, cur: Pos, ns: seq<Pos>)
    requires ns == g.Neighbours(cur)
    requires CostInv(g, passable, cost, heuristic, start, end, visited, items, costs, parents, {cur})
    requires PartlyBounded(passable, cost, visited, items, costs, cur, ns, |ns|)
    ensures CostInv(g, passable, cost, heuristic, start, end, visited, items, costs, parents, {})
  {
    forall v, n | v in visited && Step(g, passable, v, n) && n !in visited
      ensures n in items && n in costs && v in costs && costs[n].0 <= costs[v].0 + cost(v)
    {
      if v == cur {
        g.NeighboursAdjacent(cur, n);
        var j :| 0 <= j < |ns| && ns[j] == n;
      }
    }
  }

  /**
   * The end of `find_path`: follows parents from the visited cell end back
   * to start, then reverses the cells collected. The walk costs the g
   * recorded for end.
   */
  method BuildPath(g: TileMap, passable: Pos -> bool, start: Pos, end: Pos, visited: set<Pos>,
                   ghost queued: set<Pos>, parents: map<Pos, Pos>, ghost order: map<Pos, nat>, ghost time: nat,
                   ghost cost: Pos -> real, ghost costs: map<Pos, (real, real)>)
    returns (path: seq<Pos>)
    requires end in visited && visited <= costs.Keys
    requires ParentLinks(g, passable, start, visited, queued, parents, order, time)
    requires Chained(cost, start, parents, costs)
    ensures WalkFromTo(g, passable, path, start, end)
    ensures WalkCost(cost, path) == costs[end].0
    ensures start == end ==> path == [start]
  {
    path := [];
    var e := end;
    assert WalkFromTo(g, passable, [e] + Reverse(path), e, end);
    while e != start
      invariant e in visited
      invariant start == end ==> path == []
      invariant WalkFromTo(g, passable, [e] + Reverse(path), e, end)
      invariant WalkCost(cost, [e] + Reverse(path)) == costs[end].0 - costs[e].0
      decreases order[e]
    {
      var p := parents[e];
      ReverseSnoc(path, e);
      WalkPrepend(g, passable, p, [e] + Reverse(path));
      ghost var rest := [e] + Reverse(path);
      assert ([p] + rest)[1..] == rest;
      path := path + [e];
      e := p;
    }
    ReverseSnoc(path, start);
    path := path + [start];
    path := Reverse(path);
  }

  // ---------------------------------------------------------------- the search

  /** All the bookkeeping of the neighbour loop after looking at the first i neighbours ns of cur. */
  ghost predicate RelaxInv(g: TileMap, passable: Pos -> bool, cost: Pos -> real, heuristic: (Pos, Pos) -> real,
                           start: Pos, end: Pos, universe: set<Pos>, visited: set<Pos>, items: map<Pos, real>,
                           costs: map<Pos, (real, real)>, parents: map<Pos, Pos>, order: map<Pos, nat>,
                           time: nat, cur: Pos, ns: seq<Pos>, i: int)
  {
    ExploreInv(g, passable, start, universe, visited, items.Keys, costs, parents, order, time, cur, ns, i) &&
    CostInv(g, passable, cost, heuristic, start, end, visited, items, costs, parents, {cur}) &&
    PartlyBounded(passable, cost, visited, items, costs, cur, ns, i)
  }

  /** Passing over the i-th neighbour: visited, impassable, or queued no dearer than through cur. */
  lemma RelaxSkip(g: TileMap, passable: Pos -> bool, cost: Pos -> real, heuristic: (Pos, Pos) -> real,
                  start: Pos, end: Pos, universe: set<Pos>, visited: set<Pos>, items: map<Pos, real>,
                  costs: map<Pos, (real, real)>, parents: map<Pos, Pos>, order: map<Pos, nat>,
                  time: nat, cur: Pos, ns: seq<Pos>, i: int)
    requires RelaxInv(g, passable, cost, heuristic, start, end, universe, visited, items, costs, parents, order,
                      time, cur, ns, i)
    requires i < |ns|
    requires ns[i] in visited || !passable(ns[i]) ||
             (ns[i] in items && costs[ns[i]].0 <= costs[cur].0 + cost(cur))
    ensures RelaxInv(g, passable, cost, heuristic, start, end, universe, visited, items, costs, parents, order,
                     time, cur, ns, i + 1)
  {
    ExploreSkip(g, passable, start, universe, visited, items.Keys, costs, parents, order, time, cur, ns, i);
    CostSkip(passable, cost, visited, items, costs, cur, ns, i);
  }

  /** Queuing the new i-th neighbour n with g = g(cur) + cost(cur), the heuristic's h, priority g + h, parent cur. */
  lemma RelaxAdd(g: TileMap, passable: Pos -> bool, cost: Pos -> real, heuristic: (Pos, Pos) -> real,
                 start: Pos, end: Pos, universe: set<Pos>, visited: set<Pos>, items: map<Pos, real>,
                 costs: map<Pos, (real, real)>, parents: map<Pos, Pos>, order: map<Pos, nat>,
                 time: nat, cur: Pos, ns: seq<Pos>, i: int, gn: real, hn: real)
    requires RelaxInv(g, passable, cost, heuristic, start, end, universe, visited, items, costs, parents, order,
                      time, cur, ns, i)
    requires g.Cells() <= universe && ns == g.Neighbours(cur) && i < |ns|
    requires ns[i] !in visited && passable(ns[i]) && ns[i] !in items
    requires gn == costs[cur].0 + cost(cur) && hn == heuristic(ns[i], end)
    ensures RelaxInv(g, passable, cost, heuristic, start, end, universe, visited, items[ns[i] := gn + hn],
                     costs[ns[i] := (gn, hn)], parents[ns[i] := cur], order, time, cur, ns, i + 1)
  {
    var n := ns[i];
    assert items[n := gn + hn].Keys == items.Keys + {n};
    ExploreAdd(g, passable, start, universe, visited, items.Keys, costs, parents, order, time, cur, ns, i, (gn, hn));
    CostSet(g, passable, cost, heuristic, start, end, visited, items, costs, parents, cur, ns, i, gn, hn);
  }

  /** A lower g for a queued cell gives it a lower priority, since its priority is g + h. */
  lemma PriorityDrops(heuristic: (Pos, Pos) -> real, end: Pos, visited: set<Pos>, items: map<Pos, real>,
                      costs: map<Pos, (real, real)>, n: Pos, gn: real)
    requires Priced(heuristic, end, visited, items, costs) && visited != {}
    requires n in items && n in costs && gn < costs[n].0
    ensures gn + costs[n].1 < items[n]
  {
  }

  /** Giving the queued i-th neighbour n the lower g = g(cur) + cost(cur), its priority g + h and parent cur. */
  lemma RelaxLower(g: TileMap, passable: Pos -> bool, cost: Pos -> real, heuristic: (Pos, Pos) -> real,
                   start: Pos, end: Pos, universe: set<Pos>, visited: set<Pos>, items: map<Pos, real>,
                   costs: map<Pos, (real, real)>, parents: map<Pos, Pos>, order: map<Pos, nat>,
                   time: nat, cur: Pos, ns: seq<Pos>, i: int, gn: real, hn: real)
    requires RelaxInv(g, passable, cost, heuristic, start, end, universe, visited, items, costs, parents, order,
                      time, cur, ns, i)
    requires ns == g.Neighbours(cur) && i < |ns|
    requires ns[i] !in visited && passable(ns[i]) && ns[i] in items
    requires gn == costs[cur].0 + cost(cur) && gn < costs[ns[i]].0 && hn == costs[ns[i]].1
    ensures RelaxInv(g, passable, cost, heuristic, start, end, universe, visited, items[ns[i] := gn + hn],
                     costs[ns[i] := (gn, hn)], parents[ns[i] := cur], order, time, cur, ns, i + 1)
  {
    var n := ns[i];
    assert Priced(heuristic, end, visited, items, costs);
    assert hn == heuristic(n, end) && items[n] == costs[n].0 + hn;
    assert items[n := gn + hn].Keys == items.Keys;
    ExploreLower(g, passable, start, universe, visited, items.Keys, costs, parents, order, time, cur, ns, i,
                 (gn, hn));
    CostSet(g, passable, cost, heuristic, start, end, visited, items, costs, parents, cur, ns, i, gn, hn);
  }

  /** The queue's update of k to a priority q below its own lowers k to q. */
  lemma Lowered(items: map<Pos, real>, items': map<Pos, real>, k: Pos, p: real, q: real, lowered: bool)
    requires p == q && k in items && q < items[k]
    requires lowered <==> (k !in items || p < items[k])
    requires items' == if lowered then items[k := p] else items
    ensures items' == items[k := q]
  {
  }

  /** RelaxLower, stated for the queue's items after its update and the new costs and parents. */
  lemma RelaxLowered(g: TileMap, passable: Pos -> bool, cost: Pos -> real, heuristic: (Pos, Pos) -> real,
                     start: Pos, end: Pos, universe: set<Pos>, visited: set<Pos>, items: map<Pos, real>,
                     costs: map<Pos, (real, real)>, parents: map<Pos, Pos>, order: map<Pos, nat>,
                     time: nat, cur: Pos, ns: seq<Pos>, i: int, gn: real, hn: real, p: real, lowered: bool,
                     items': map<Pos, real>, costs': map<Pos, (real, real)>, parents': map<Pos, Pos>)
    requires RelaxInv(g, passable, cost, heuristic, start, end, universe, visited, items, costs, parents, order,
                      time, cur, ns, i)
    requires ns == g.Neighbours(cur) && i < |ns|
    requires ns[i] !in visited && passable(ns[i]) && ns[i] in items
    requires gn == costs[cur].0 + cost(cur) && gn < costs[ns[i]].0 && hn == costs[ns[i]].1
    requires p == gn + hn
    requires lowered <==> (ns[i] !in items || p < items[ns[i]])
    requires items' == if lowered then items[ns[i] := p] else items
    requires costs' == costs[ns[i] := (gn, hn)] && parents' == parents[ns[i] := cur]
    ensures RelaxInv(g, passable, cost, heuristic, start, end, universe, visited, items', costs', parents', order,
                     time, cur, ns, i + 1)
  {
    PriorityDrops(heuristic, end, visited, items, costs, ns[i], gn);
    Lowered(items, items', ns[i], p, gn + hn, lowered);
    RelaxLower(g, passable, cost, heuristic, start, end, universe, visited, items, costs, parents, order,
               time, cur, ns, i, gn, hn);
  }

  /**
   * The body of the neighbour loop of `find_path` for the i-th neighbour n of
   * cur: a passable, unvisited n is queued with cost g = g(cur) + cost(cur)
   * and parent cur when it is new, and gets that cost and parent when they
   * improve on its own.
   */
  method Relax(g: TileMap, end: Pos, cost: Pos -> real, passable: Pos -> bool,
               heuristic: (Pos, Pos) -> real, todo: PQueue<Pos>,
               ghost start: Pos, ghost universe: set<Pos>, visited: set<Pos>,
               costs0: map<Pos, (real, real)>, parents0: map<Pos, Pos>,
               ghost order: map<Pos, nat>, ghost time: nat, cur: Pos, ns: seq<Pos>, i: nat)
    returns (costs: map<Pos, (real, real)>, parents: map<Pos, Pos>)
    modifies todo
    requires g.Cells() <= universe && ns == g.Neighbours(cur) && i < |ns|
    requires RelaxInv(g, passable, cost, heuristic, start, end, universe, visited, todo.items, costs0, parents0,
                      order, time, cur, ns, i)
    ensures RelaxInv(g, passable, cost, heuristic, start, end, universe, visited, todo.items, costs, parents,
                     order, time, cur, ns, i + 1)
    ensures todo.tieBreaker == old(todo.tieBreaker)
  {
    var n := ns[i];
    if n in visited || !passable(n) {
      costs, parents := costs0, parents0;
      RelaxSkip(g, passable, cost, heuristic, start, end, universe, visited, todo.items, costs, parents, order,
                time, cur, ns, i);
    } else if !todo.Contains(n) {
      costs, parents := Discover(g, end, cost, passable, heuristic, todo, start, universe, visited, costs0, parents0, order, time, cur, ns, i);
    } else if costs0[cur].0 + cost(cur) < costs0[n].0 {
      costs, parents := Improve(g, end, cost, passable, heuristic, todo, start, universe, visited, costs0, parents0, order, time, cur, ns, i);
    } else {
      costs, parents := costs0, parents0;
      RelaxSkip(g, passable, cost, heuristic, start, end, universe, visited, todo.items, costs, parents, order,
                time, cur, ns, i);
    }
  }

  /** The i-th neighbour is reached for the first time: queue it with its cost through cur. */
  method Discover(g: TileMap, end: Pos, cost: Pos -> real, passable: Pos -> bool,
               heuristic: (Pos, Pos) -> real, todo: PQueue<Pos>,
               ghost start: Pos, ghost universe: set<Pos>, visited: set<Pos>,
               costs0: map<Pos, (real, real)>, parents0: map<Pos, Pos>,
               ghost order: map<Pos, nat>, ghost time: nat, cur: Pos, ns: seq<Pos>, i: nat)
    returns (costs: map<Pos, (real, real)>, parents: map<Pos, Pos>)
    modifies todo
    requires g.Cells() <= universe && ns == g.Neighbours(cur) && i < |ns|
    requires RelaxInv(g, passable, cost, heuristic, start, end, universe, visited, todo.items, costs0, parents0,
                      order, time, cur, ns, i)
    requires ns[i] !in visited && passable(ns[i]) && ns[i] !in todo.items
    ensures RelaxInv(g, passable, cost, heuristic, start, end, universe, visited, todo.items, costs, parents,
                     order, time, cur, ns, i + 1)
    ensures todo.tieBreaker == old(todo.tieBreaker)
  {
    var n := ns[i];
    var gn := costs0[cur].0 + cost(cur);
    var hn := heuristic(n, end);
    RelaxAdd(g, passable, cost, heuristic, start, end, universe, visited, todo.items, costs0, parents0, order,
             time, cur, ns, i, gn, hn);
    costs := costs0[n := (gn, hn)];
    parents := parents0[n := cur];
    var inserted := todo.Update(n, gn + hn);
  }

  /** The i-th neighbour is queued but cur offers a cheaper way to it: lower its cost and priority. */
  method Improve(g: TileMap, end: Pos, cost: Pos -> real, passable: Pos -> bool,
               heuristic: (Pos, Pos) -> real, todo: PQueue<Pos>,
               ghost start: Pos, ghost universe: set<Pos>, visited: set<Pos>,
               costs0: map<Pos, (real, real)>, parents0: map<Pos, Pos>,
               ghost order: map<Pos, nat>, ghost time: nat, cur: Pos, ns: seq<Pos>, i: nat)
    returns (costs: map<Pos, (real, real)>, parents: map<Pos, Pos>)
    modifies todo
    requires g.Cells() <= universe && ns == g.Neighbours(cur) && i < |ns|
    requires RelaxInv(g, passable, cost, heuristic, start, end, universe, visited, todo.items, costs0, parents0,
                      order, time, cur, ns, i)
    requires ns[i] !in visited && passable(ns[i]) && ns[i] in todo.items && ns[i] in costs0
    requires cur in costs0 && costs0[cur].0 + cost(cur) < costs0[ns[i]].0
    ensures RelaxInv(g, passable, cost, heuristic, start, end, universe, visited, todo.items, costs, parents,
                     order, time, cur, ns, i + 1)
    ensures todo.tieBreaker == old(todo.tieBreaker)
  {
    var n := ns[i];
    var gn := costs0[cur].0 + cost(cur);
    var hn := costs0[n].1;
    var p := gn + hn;
    var lowered := todo.Update(ns[i], p);
    costs := costs0[n := (gn, hn)];
    parents := parents0[n := cur];
    RelaxLowered(g, passable, cost, heuristic, start, end, universe, visited, old(todo.items), costs0, parents0,
                 order, time, cur, ns, i, gn, hn, p, lowered, todo.items, costs, parents);
  }

  /** The neighbour loop of `find_path`: relaxes every neighbour of cur, after which cur is explored. */
  method Explore(g: TileMap, end: Pos, cost: Pos -> real, passable: Pos -> bool,
                 heuristic: (Pos, Pos) -> real, todo: PQueue<Pos>,
                 ghost start: Pos, ghost universe: set<Pos>, visited: set<Pos>,
                 costs0: map<Pos, (real, real)>, parents0: map<Pos, Pos>,
                 ghost order: map<Pos, nat>, ghost time: nat, cur: Pos)
    returns (costs: map<Pos, (real, real)>, parents: map<Pos, Pos>)
    modifies todo
    requires g.Cells() <= universe && cur in visited
    requires SearchState(g, passable, start, universe, visited, todo.items.Keys, costs0, parents0, order, time)
    requires CostInv(g, passable, cost, heuristic, start, end, visited, todo.items, costs0, parents0, {cur})
    ensures SearchInv(g, passable, start, universe, visited, todo.items.Keys, costs, parents, order, time)
    ensures CostInv(g, passable, cost, heuristic, start, end, visited, todo.items, costs, parents, {})
    ensures todo.tieBreaker == old(todo.tieBreaker)
  {
    costs, parents := costs0, parents0;
    var ns := g.Neighbours(cur);
    var i := 0;
    while i < |ns|
      invariant todo.tieBreaker == old(todo.tieBreaker)
      invariant RelaxInv(g, passable, cost, heuristic, start, end, universe, visited, todo.items, costs, parents,
                         order, time, cur, ns, i)
      decreases |ns| - i
    {
      costs, parents := Relax(g, end, cost, passable, heuristic, todo, start, universe, visited, costs, parents,
                              order, time, cur, ns, i);
      i := i + 1;
    }
    CostClose(g, passable, cost, heuristic, start, end, visited, todo.items, costs, parents, cur, ns);
    BoundedExplored(g, passable, cost, visited, todo.items, costs, {});
  }

  /**
   * One round of the search loop of `find_path`: installs the `better_tile`
   * tie-breaker, pops the best queued cell, visits it and looks at its
   * neighbours.
   */
  method SearchStep(g: TileMap, start: Pos, end: Pos, cost: Pos -> real, passable: Pos -> bool,
                    heuristic: (Pos, Pos) -> real, todo: PQueue<Pos>, ghost universe: set<Pos>,
                    visited0: set<Pos>, costs0: map<Pos, (real, real)>, parents0: map<Pos, Pos>,
                    ghost order0: map<Pos, nat>, ghost time0: nat)
    returns (visited: set<Pos>, costs: map<Pos, (real, real)>, parents: map<Pos, Pos>,
             ghost order: map<Pos, nat>, ghost time: nat)
    modifies todo
    requires g.Cells() <= universe && todo.items != map[]
    requires SearchInv(g, passable, start, universe, visited0, todo.items.Keys, costs0, parents0, order0, time0)
    requires CostInv(g, passable, cost, heuristic, start, end, visited0, todo.items, costs0, parents0, {})
    ensures SearchInv(g, passable, start, universe, visited, todo.items.Keys, costs, parents, order, time)
    ensures CostInv(g, passable, cost, heuristic, start, end, visited, todo.items, costs, parents, {})
    ensures |universe - visited| < |universe - visited0|
  {
    todo.tieBreaker := Some(BetterTileOrder(start, end));
    TieBreakerStrict(start, end, todo.items.Keys);
    ghost var items := todo.items;
    ghost var queued := todo.items.Keys;
    var cur, c := todo.PopSmallest();
    SearchPop(g, passable, start, universe, visited0, queued, costs0, parents0, order0, time0, cur);
    CostPop(g, passable, cost, heuristic, start, end, visited0, items, costs0, parents0, cur);
    Shrinks(universe, visited0, cur);
    visited := visited0 + {cur};
    order := order0[cur := time0];
    time := time0 + 1;
    costs, parents := Explore(g, end, cost, passable, heuristic, todo, start, universe, visited, costs0, parents0,
                              order, time, cur);
  }

  /**
   * `find_path`: the empty list exactly when no walk leads from start to
   * end; otherwise a walk from start to end (consecutive cells are grid
   * neighbours, and every cell after start is on the map and passable).
   * From a cell to itself the path is that cell alone. Under a consistent
   * heuristic the path is a cheapest walk, and with unit costs a shortest.
   */
  method FindPath(g: TileMap, start: Pos, end: Pos, cost: Pos -> real, passable: Pos -> bool,
                  heuristic: (Pos, Pos) -> real)
    returns (path: seq<Pos>)
    ensures path == [] <==> !Connected(g, passable, start, end)
    ensures path != [] ==> WalkFromTo(g, passable, path, start, end)
    ensures start == end ==> path == [start]
    ensures path != [] && ConsistentHeuristic(cost, heuristic, end) ==> Cheapest(g, passable, cost, path, start, end)
    ensures path != [] && ConsistentHeuristic(cost, heuristic, end) && (forall p :: cost(p) == 1.0) ==>
              forall w :: WalkFromTo(g, passable, w, start, end) ==> |path| <= |w|
  {
    var todo := new PQueue<Pos>();
    var queuedStart := todo.Update(start, 0.0);
    var visited: set<Pos> := {};
    var costs := map[start := (0.0, heuristic(start, end))];
    var parents: map<Pos, Pos> := map[];
    ghost var order: map<Pos, nat> := map[];
    ghost var time: nat := 0;
    ghost var universe := g.Cells() + {start};
    while todo.NonEmpty() && end !in visited
      invariant SearchInv(g, passable, start, universe, visited, todo.items.Keys, costs, parents, order, time)
      invariant CostInv(g, passable, cost, heuristic, start, end, visited, todo.items, costs, parents, {})
      decreases |universe - visited|
    {
      visited, costs, parents, order, time :=
        SearchStep(g, start, end, cost, passable, heuristic, todo, universe, visited, costs, parents, order, time);
    }

    if end !in visited {
      NoWalk(g, passable, start, end, visited);
      return [];
    }
    path := BuildPath(g, passable, start, end, visited, todo.items.Keys, parents, order, time, cost, costs);
    if (forall p :: cost(p) == 1.0) && ConsistentHeuristic(cost, heuristic, end) {
      CheapestIsShortest(g, passable, cost, path, start, end);
    }
  }
}

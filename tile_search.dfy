/**
 * The grid searches of tiles.py: the A* tie-break `better_tile`, the A*
 * search `find_path` and the cost-bounded flood fill `reachable_tiles`.
 *
 * A walk is a sequence of cells in which each cell is a neighbour of the one
 * before it and every cell after the first is passable; its cost is the sum
 * of the cost of leaving each cell but the last (the cost convention of both
 * searches).
 */
module TileSearch {
  import opened Helper
  import opened Wrappers
  import opened Tiles
  import opened PriorityQueue

  // ---------------------------------------------------------------- better_tile

  /**
   * `better_tile(a, b, start, end)`: a is preferred to b when it lies closer
   * to the segment from start to end, then when it has the smaller y, then
   * when it has the smaller x.
   */
  function BetterTile(a: Pos, b: Pos, start: Pos, end: Pos): (r: bool)
    ensures var da, db := SquaredSegmentDist(ToPoint(a), ToPoint(start), ToPoint(end)),
                          SquaredSegmentDist(ToPoint(b), ToPoint(start), ToPoint(end));
            (da < db ==> r) && (r ==> da <= db)
  {
    var da := SquaredSegmentDist(ToPoint(a), ToPoint(start), ToPoint(end));
    var db := SquaredSegmentDist(ToPoint(b), ToPoint(start), ToPoint(end));
    if da < db then true
    else if da > db then false
    else if a.1 < b.1 then true
    else if a.1 > b.1 then false
    else a.0 < b.0
  }

  /** The key that `better_tile` compares lexicographically. */
  function TieKey(a: Pos, start: Pos, end: Pos): (real, int, int)
  {
    (SquaredSegmentDist(ToPoint(a), ToPoint(start), ToPoint(end)), a.1, a.0)
  }

  /** Strict lexicographic order on keys. */
  predicate LexLess(k: (real, int, int), l: (real, int, int))
  {
    k.0 < l.0 || (k.0 == l.0 && (k.1 < l.1 || (k.1 == l.1 && k.2 < l.2)))
  }

  /** `better_tile` is exactly the lexicographic order on (distance, y, x). */
  lemma BetterTileIsLexicographic(a: Pos, b: Pos, start: Pos, end: Pos)
    ensures BetterTile(a, b, start, end) <==> LexLess(TieKey(a, start, end), TieKey(b, start, end))
  {
  }

  /**
   * `better_tile` is a strict total order: never true of a tile against
   * itself, exactly one direction holds for distinct tiles, and transitive.
   */
  lemma BetterTileStrictTotal(a: Pos, b: Pos, c: Pos, start: Pos, end: Pos)
    ensures !BetterTile(a, a, start, end)
    ensures a != b ==> (BetterTile(a, b, start, end) <==> !BetterTile(b, a, start, end))
    ensures BetterTile(a, b, start, end) && BetterTile(b, c, start, end) ==> BetterTile(a, c, start, end)
  {
    BetterTileIsLexicographic(a, b, start, end);
    BetterTileIsLexicographic(b, a, start, end);
    BetterTileIsLexicographic(b, c, start, end);
    BetterTileIsLexicographic(a, c, start, end);
  }

  /** The tie-breaker `find_path` installs on its queue: `lambda a, b: better_tile(a, b, start, end)`. */
  function BetterTileOrder(start: Pos, end: Pos): (Pos, Pos) -> bool
  {
    (a: Pos, b: Pos) => BetterTile(a, b, start, end)
  }

  /** The tie-breaker installed on the A* queue is a strict order. */
  lemma TieBreakerStrict(start: Pos, end: Pos, s: set<Pos>)
    ensures StrictOrderOn(BetterTileOrder(start, end), s)
  {
    forall a, b, c | a in s && b in s && c in s
      ensures !BetterTile(a, a, start, end)
      ensures BetterTile(a, b, start, end) && BetterTile(b, c, start, end) ==> BetterTile(a, c, start, end)
    {
      BetterTileStrictTotal(a, b, c, start, end);
    }
  }

  /** Doctest: (1, 1) lies on the line from (0, 0) to (3, 3), (1, 2) does not. */
  lemma BetterTileOnLine()
    ensures BetterTile((1, 1), (1, 2), (0, 0), (3, 3))
  {
    var a, b := ToPoint((0, 0)), ToPoint((3, 3));
    assert SquaredDist(a, b) == 18.0;
    assert Projection(ToPoint((1, 1)), a, b) == 1.0 / 3.0;
    assert Lerp(a, b, 1.0 / 3.0) == (1.0, 1.0);
    assert Projection(ToPoint((1, 2)), a, b) == 0.5;
    assert Lerp(a, b, 0.5) == (1.5, 1.5);
  }

  /** Doctest: (1, 4) lies closer to the line from (0, 3) to (3, 3). */
  lemma BetterTileCloser()
    ensures !BetterTile((1, 1), (1, 4), (0, 3), (3, 3))
  {
    var a, b := ToPoint((0, 3)), ToPoint((3, 3));
    assert SquaredDist(a, b) == 9.0;
    assert Projection(ToPoint((1, 1)), a, b) == 1.0 / 3.0;
    assert Projection(ToPoint((1, 4)), a, b) == 1.0 / 3.0;
    assert Lerp(a, b, 1.0 / 3.0) == (1.0, 3.0);
  }

  /** Doctest: equal distances, so the lower y, (1, 0), wins. */
  lemma BetterTileLowerY()
    ensures !BetterTile((0, 1), (1, 0), (0, 0), (3, 3))
  {
    var a, b := ToPoint((0, 0)), ToPoint((3, 3));
    assert SquaredDist(a, b) == 18.0;
    assert Projection(ToPoint((0, 1)), a, b) == 1.0 / 6.0;
    assert Projection(ToPoint((1, 0)), a, b) == 1.0 / 6.0;
    assert Lerp(a, b, 1.0 / 6.0) == (0.5, 0.5);
  }

  /** Doctest: equal distances and equal y, so the lower x, (3, 1), wins. */
  lemma BetterTileLowerX()
    ensures BetterTile((3, 1), (5, 1), (4, 0), (4, 4))
  {
    var a, b := ToPoint((4, 0)), ToPoint((4, 4));
    assert SquaredDist(a, b) == 16.0;
    assert Projection(ToPoint((3, 1)), a, b) == 0.25;
    assert Projection(ToPoint((5, 1)), a, b) == 0.25;
    assert Lerp(a, b, 0.25) == (4.0, 1.0);
  }

  // ---------------------------------------------------------------- walks

  function Last(w: seq<Pos>): Pos
    requires |w| > 0
  {
    w[|w| - 1]
  }

  /** One move of a search: to a passable cell of the map one grid step away (a neighbour). */
  ghost predicate Step(g: TileMap, passable: Pos -> bool, a: Pos, b: Pos)
  {
    g.TileExists(b) && Adjacent(a, b) && passable(b)
  }

  /** Consecutive cells (indices i and j = i + 1) are grid neighbours and every cell after the first is passable. */
  ghost predicate IsWalk(g: TileMap, passable: Pos -> bool, w: seq<Pos>)
  {
    |w| > 0 &&
    forall i, j {:trigger w[i], w[j]} :: 0 <= i && j == i + 1 && j < |w| ==> Step(g, passable, w[i], w[j])
  }

  /** A walk from a to b. */
  ghost predicate WalkFromTo(g: TileMap, passable: Pos -> bool, w: seq<Pos>, a: Pos, b: Pos)
  {
    IsWalk(g, passable, w) && w[0] == a && Last(w) == b
  }

  /** The summed cost of leaving every cell of w but its last. */
  function WalkCost(cost: Pos -> real, w: seq<Pos>): real
    decreases |w|
  {
    if |w| <= 1 then 0.0 else cost(w[0]) + WalkCost(cost, w[1..])
  }

  /** b can be reached from a. */
  ghost predicate Connected(g: TileMap, passable: Pos -> bool, a: Pos, b: Pos)
  {
    exists w :: WalkFromTo(g, passable, w, a, b)
  }

  /** p is start, or the end of a walk from start that costs at most maxCost. */
  ghost predicate ReachableWithin(g: TileMap, passable: Pos -> bool, cost: Pos -> real,
                                  start: Pos, maxCost: real, p: Pos)
  {
    p == start ||
    exists w :: WalkFromTo(g, passable, w, start, p) && WalkCost(cost, w) <= maxCost
  }

  ghost predicate NonNegative(cost: Pos -> real)
  {
    forall p {:trigger cost(p)} :: cost(p) >= 0.0
  }

  /** Extending a walk by one step adds the cost of leaving its last cell. */
  lemma {:induction false} WalkCostAppend(cost: Pos -> real, w: seq<Pos>, n: Pos)
    requires |w| > 0
    ensures WalkCost(cost, w + [n]) == WalkCost(cost, w) + cost(Last(w))
    decreases |w|
  {
    if |w| == 1 {
      assert (w + [n])[1..] == [n];
    } else {
      assert (w + [n])[1..] == w[1..] + [n];
      WalkCostAppend(cost, w[1..], n);
    }
  }

  /** A walk extended by a passable neighbour of its end is a walk. */
  lemma WalkExtend(g: TileMap, passable: Pos -> bool, w: seq<Pos>, n: Pos)
    requires IsWalk(g, passable, w)
    requires Step(g, passable, Last(w), n)
    ensures IsWalk(g, passable, w + [n])
  {
    var v := w + [n];
    forall i {:trigger v[i]} | 0 <= i < |v| - 1
      ensures Step(g, passable, v[i], v[i + 1])
    {
      if i < |w| - 1 {
        assert v[i] == w[i] && v[i + 1] == w[i + 1];
      }
    }
  }

  /** A walk without its last cell is a walk, and costs that much less. */
  lemma WalkPrefix(g: TileMap, passable: Pos -> bool, cost: Pos -> real, w: seq<Pos>)
    requires IsWalk(g, passable, w) && |w| > 1
    ensures IsWalk(g, passable, w[..|w| - 1])
    ensures WalkCost(cost, w) == WalkCost(cost, w[..|w| - 1]) + cost(w[|w| - 2])
    ensures Step(g, passable, Last(w[..|w| - 1]), Last(w))
  {
    var u := w[..|w| - 1];
    assert u + [Last(w)] == w;
    WalkCostAppend(cost, u, Last(w));
  }

  /** A larger budget reaches at least every cell a smaller one reaches, whatever the costs. */
  lemma ReachableWithinMonotone(g: TileMap, passable: Pos -> bool, cost: Pos -> real,
                                start: Pos, m1: real, m2: real, p: Pos)
    requires m1 <= m2
    requires ReachableWithin(g, passable, cost, start, m1, p)
    ensures ReachableWithin(g, passable, cost, start, m2, p)
  {
  }

  // ---------------------------------------------------------------- reachable_tiles

  /** Each entry of m is the cost of a recorded walk from start to it. */
  ghost predicate Witnessed(g: TileMap, passable: Pos -> bool, cost: Pos -> real, start: Pos,
                            walks: map<Pos, seq<Pos>>, m: map<Pos, real>)
  {
    forall v :: v in m ==>
      v in walks && WalkFromTo(g, passable, walks[v], start, v) && WalkCost(cost, walks[v]) == m[v]
  }

  /** n is settled, or queued, at a cost of at most b. */
  ghost predicate Bound(dist: map<Pos, real>, todo: map<Pos, real>, n: Pos, b: real)
  {
    (n in dist && dist[n] <= b) || (n in todo && todo[n] <= b)
  }

  /** Every passable neighbour of the settled cell v is bounded by the cost through v. */
  ghost predicate Closed(g: TileMap, passable: Pos -> bool, cost: Pos -> real,
                         dist: map<Pos, real>, todo: map<Pos, real>, v: Pos)
    requires v in dist
  {
    forall n :: Step(g, passable, v, n) ==> Bound(dist, todo, n, dist[v] + cost(v))
  }

  /**
   * Once the queue is empty and every settled cell within budget is closed,
   * every walk from start within budget ends at a settled cell, settled no
   * dearer than the walk.
   */
  lemma {:induction false} WalkReaches(g: TileMap, passable: Pos -> bool, cost: Pos -> real,
                                       start: Pos, dist: map<Pos, real>, maxCost: real, w: seq<Pos>)
    requires NonNegative(cost)
    requires start in dist && dist[start] == 0.0
    requires forall v :: v in dist && dist[v] <= maxCost ==> Closed(g, passable, cost, dist, map[], v)
    requires IsWalk(g, passable, w) && w[0] == start && WalkCost(cost, w) <= maxCost
    ensures Last(w) in dist && dist[Last(w)] <= WalkCost(cost, w)
    decreases |w|
  {
    if |w| > 1 {
      var u := w[..|w| - 1];
      WalkPrefix(g, passable, cost, w);
      assert cost(w[|w| - 2]) >= 0.0;
      WalkReaches(g, passable, cost, start, dist, maxCost, u);
      assert Closed(g, passable, cost, dist, map[], Last(u));
    }
  }

  /** The settled and queued cells are disjoint cells of the universe; dist records the settled. */
  ghost predicate Frame(universe: set<Pos>, visited: set<Pos>, dist: map<Pos, real>, todo: map<Pos, real>)
  {
    visited !! todo.Keys && visited + todo.Keys <= universe && dist.Keys == visited
  }

  /** Until the first pop only start is queued, at 0; afterwards start is settled at 0. */
  ghost predicate StartSettled(start: Pos, visited: set<Pos>, dist: map<Pos, real>, todo: map<Pos, real>)
  {
    (visited == {} ==> todo == map[start := 0.0]) &&
    (visited != {} ==> start in visited && start in dist && dist[start] == 0.0)
  }

  /** The set built so far: start, the settled cells within budget and the queued cells within budget. */
  ghost predicate ReachableSplit(start: Pos, maxCost: real, reachable: set<Pos>,
                                 dist: map<Pos, real>, todo: map<Pos, real>)
  {
    forall p :: p in reachable <==>
      p == start || (p in dist && dist[p] <= maxCost) || (p in todo && todo[p] <= maxCost)
  }

  /** The bookkeeping of `reachable_tiles` between steps. */
  ghost predicate ReachState(g: TileMap, passable: Pos -> bool, cost: Pos -> real, start: Pos,
                             maxCost: real, universe: set<Pos>, visited: set<Pos>, dist: map<Pos, real>,
                             todo: map<Pos, real>, walks: map<Pos, seq<Pos>>, reachable: set<Pos>)
  {
    Frame(universe, visited, dist, todo) &&
    StartSettled(start, visited, dist, todo) &&
    Witnessed(g, passable, cost, start, walks, dist) &&
    Witnessed(g, passable, cost, start, walks, todo) &&
    ReachableSplit(start, maxCost, reachable, dist, todo)
  }

  /** With non-negative costs nothing settled is dearer than level and nothing queued is cheaper. */
  ghost predicate Settled(cost: Pos -> real, dist: map<Pos, real>, todo: map<Pos, real>, level: real)
  {
    NonNegative(cost) ==>
      (forall v :: v in dist ==> dist[v] <= level) && (forall t :: t in todo ==> level <= todo[t])
  }

  /** With non-negative costs every settled cell within budget, except those in skip, is closed. */
  ghost predicate ClosedExcept(g: TileMap, passable: Pos -> bool, cost: Pos -> real, maxCost: real,
                               dist: map<Pos, real>, todo: map<Pos, real>, skip: set<Pos>)
  {
    NonNegative(cost) ==>
      forall v :: v in dist && v !in skip && dist[v] <= maxCost ==> Closed(g, passable, cost, dist, todo, v)
  }

  /** With non-negative costs the first i neighbours of cur are bounded by the cost through cur. */
  ghost predicate PartlyClosed(passable: Pos -> bool, cost: Pos -> real, dist: map<Pos, real>,
                               todo: map<Pos, real>, cur: Pos, c: real, ns: seq<Pos>, i: int)
    requires 0 <= i <= |ns|
  {
    NonNegative(cost) ==>
      forall j :: 0 <= j < i && passable(ns[j]) ==> Bound(dist, todo, ns[j], c + cost(cur))
  }

  /** Settling a queued cell moves its walk from the queue to the settled map. */
  lemma WitnessedMove(g: TileMap, passable: Pos -> bool, cost: Pos -> real, start: Pos,
                      walks: map<Pos, seq<Pos>>, dist: map<Pos, real>, todo: map<Pos, real>, cur: Pos)
    requires Witnessed(g, passable, cost, start, walks, dist)
    requires Witnessed(g, passable, cost, start, walks, todo)
    requires cur in todo
    ensures Witnessed(g, passable, cost, start, walks, dist[cur := todo[cur]])
    ensures Witnessed(g, passable, cost, start, walks, todo - {cur})
  {
  }

  /** Recording a walk for a cell outside m keeps m witnessed. */
  lemma WitnessedOther(g: TileMap, passable: Pos -> bool, cost: Pos -> real, start: Pos,
                       walks: map<Pos, seq<Pos>>, m: map<Pos, real>, n: Pos, w: seq<Pos>)
    requires Witnessed(g, passable, cost, start, walks, m)
    requires n !in m
    ensures Witnessed(g, passable, cost, start, walks[n := w], m)
  {
  }

  /** Queuing n at the cost of a walk to it keeps the queue witnessed. */
  lemma WitnessedQueue(g: TileMap, passable: Pos -> bool, cost: Pos -> real, start: Pos,
                       walks: map<Pos, seq<Pos>>, m: map<Pos, real>, n: Pos, w: seq<Pos>, x: real)
    requires Witnessed(g, passable, cost, start, walks, m)
    requires WalkFromTo(g, passable, w, start, n) && WalkCost(cost, w) == x
    ensures Witnessed(g, passable, cost, start, walks[n := w], m[n := x])
  {
  }

  lemma FramePop(universe: set<Pos>, visited: set<Pos>, dist: map<Pos, real>, todo: map<Pos, real>, cur: Pos)
    requires Frame(universe, visited, dist, todo) && cur in todo
    ensures Frame(universe, visited + {cur}, dist[cur := todo[cur]], todo - {cur})
  {
  }

  lemma StartPop(universe: set<Pos>, start: Pos, visited: set<Pos>, dist: map<Pos, real>,
                 todo: map<Pos, real>, cur: Pos)
    requires Frame(universe, visited, dist, todo) && StartSettled(start, visited, dist, todo) && cur in todo
    ensures StartSettled(start, visited + {cur}, dist[cur := todo[cur]], todo - {cur})
  {
    if visited == {} {
      assert cur == start;
    }
  }

  lemma SplitPop(universe: set<Pos>, start: Pos, maxCost: real, reachable: set<Pos>, visited: set<Pos>,
                 dist: map<Pos, real>, todo: map<Pos, real>, cur: Pos)
    requires Frame(universe, visited, dist, todo) && ReachableSplit(start, maxCost, reachable, dist, todo)
    requires cur in todo
    ensures ReachableSplit(start, maxCost, reachable, dist[cur := todo[cur]], todo - {cur})
  {
  }

  /** With non-negative costs, settling a cheapest cell keeps the order and the closure of the others. */
  lemma OrderPop(g: TileMap, passable: Pos -> bool, cost: Pos -> real, maxCost: real, visited: set<Pos>,
                 universe: set<Pos>, dist: map<Pos, real>, todo: map<Pos, real>, level: real, cur: Pos)
    requires Frame(universe, visited, dist, todo)
    requires Settled(cost, dist, todo, level)
    requires ClosedExcept(g, passable, cost, maxCost, dist, todo, {})
    requires cur in todo && forall y :: y in todo ==> todo[cur] <= todo[y]
    ensures Settled(cost, dist[cur := todo[cur]], todo - {cur}, todo[cur])
    ensures ClosedExcept(g, passable, cost, maxCost, dist[cur := todo[cur]], todo - {cur}, {cur})
  {
    var dist', todo' := dist[cur := todo[cur]], todo - {cur};
    if NonNegative(cost) {
      forall v | v in dist' && v != cur && dist'[v] <= maxCost
        ensures Closed(g, passable, cost, dist', todo', v)
      {
        assert Closed(g, passable, cost, dist, todo, v);
        forall n | Step(g, passable, v, n)
          ensures Bound(dist', todo', n, dist'[v] + cost(v))
        {
          assert Bound(dist, todo, n, dist[v] + cost(v));
        }
      }
    }
  }

  /** Popping the cheapest queued cell settles it and keeps the bookkeeping. */
  lemma ReachPop(g: TileMap, passable: Pos -> bool, cost: Pos -> real, start: Pos, maxCost: real,
                 universe: set<Pos>, visited: set<Pos>, dist: map<Pos, real>, todo: map<Pos, real>,
                 walks: map<Pos, seq<Pos>>, reachable: set<Pos>, level: real, cur: Pos, c: real)
    requires ReachState(g, passable, cost, start, maxCost, universe, visited, dist, todo, walks, reachable)
    requires Settled(cost, dist, todo, level)
    requires ClosedExcept(g, passable, cost, maxCost, dist, todo, {})
    requires cur in todo && c == todo[cur] && forall y :: y in todo ==> c <= todo[y]
    ensures ReachState(g, passable, cost, start, maxCost, universe, visited + {cur}, dist[cur := c],
                       todo - {cur}, walks, reachable)
    ensures Settled(cost, dist[cur := c], todo - {cur}, c)
    ensures ClosedExcept(g, passable, cost, maxCost, dist[cur := c], todo - {cur}, {cur})
  {
    FramePop(universe, visited, dist, todo, cur);
    StartPop(universe, start, visited, dist, todo, cur);
    SplitPop(universe, start, maxCost, reachable, visited, dist, todo, cur);
    WitnessedMove(g, passable, cost, start, walks, dist, todo, cur);
    OrderPop(g, passable, cost, maxCost, visited, universe, dist, todo, level, cur);
  }

  lemma FrameRelax(universe: set<Pos>, visited: set<Pos>, dist: map<Pos, real>, todo: map<Pos, real>,
                   n: Pos, x: real)
    requires Frame(universe, visited, dist, todo) && n !in visited && n in universe
    ensures Frame(universe, visited, dist, todo[n := x])
  {
  }

  lemma SplitRelax(universe: set<Pos>, start: Pos, maxCost: real, reachable: set<Pos>, visited: set<Pos>,
                   dist: map<Pos, real>, todo: map<Pos, real>, n: Pos, x: real)
    requires Frame(universe, visited, dist, todo) && ReachableSplit(start, maxCost, reachable, dist, todo)
    requires start in visited && n !in visited
    requires n !in todo || x < todo[n]
    ensures ReachableSplit(start, maxCost, if x <= maxCost then reachable + {n} else reachable,
                           dist, todo[n := x])
  {
  }

  /** With non-negative costs, lowering the queued cost of ns[i] keeps the closure and bounds ns[i]. */
  lemma OrderRelax(g: TileMap, passable: Pos -> bool, cost: Pos -> real, maxCost: real,
                   dist: map<Pos, real>, todo: map<Pos, real>, cur: Pos, c: real, ns: seq<Pos>, i: int, x: real)
    requires Settled(cost, dist, todo, c)
    requires ClosedExcept(g, passable, cost, maxCost, dist, todo, {cur})
    requires 0 <= i < |ns| && PartlyClosed(passable, cost, dist, todo, cur, c, ns, i)
    requires ns[i] !in dist && (ns[i] !in todo || x < todo[ns[i]])
    requires x == c + cost(cur)
    ensures Settled(cost, dist, todo[ns[i] := x], c)
    ensures ClosedExcept(g, passable, cost, maxCost, dist, todo[ns[i] := x], {cur})
    ensures PartlyClosed(passable, cost, dist, todo[ns[i] := x], cur, c, ns, i + 1)
  {
    var todo' := todo[ns[i] := x];
    if NonNegative(cost) {
      assert cost(cur) >= 0.0;
      forall v | v in dist && v != cur && dist[v] <= maxCost
        ensures Closed(g, passable, cost, dist, todo', v)
      {
        assert Closed(g, passable, cost, dist, todo, v);
        forall m | Step(g, passable, v, m)
          ensures Bound(dist, todo', m, dist[v] + cost(v))
        {
          assert Bound(dist, todo, m, dist[v] + cost(v));
        }
      }
      forall j | 0 <= j < i + 1 && passable(ns[j])
        ensures Bound(dist, todo', ns[j], c + cost(cur))
      {
        if j < i {
          assert Bound(dist, todo, ns[j], c + cost(cur));
        }
      }
    }
  }

  /** With non-negative costs, a queued cost of ns[i] no dearer than the cost through cur bounds it. */
  lemma OrderKeep(passable: Pos -> bool, cost: Pos -> real, dist: map<Pos, real>, todo: map<Pos, real>,
                  cur: Pos, c: real, ns: seq<Pos>, i: int)
    requires 0 <= i < |ns| && PartlyClosed(passable, cost, dist, todo, cur, c, ns, i)
    requires ns[i] in todo && todo[ns[i]] <= c + cost(cur)
    ensures PartlyClosed(passable, cost, dist, todo, cur, c, ns, i + 1)
  {
  }

  /** A settled or impassable neighbour ns[i] needs no update. */
  lemma ReachSkip(passable: Pos -> bool, cost: Pos -> real, dist: map<Pos, real>, todo: map<Pos, real>,
                  cur: Pos, c: real, ns: seq<Pos>, i: int)
    requires 0 <= i < |ns| && PartlyClosed(passable, cost, dist, todo, cur, c, ns, i)
    requires ns[i] in dist || !passable(ns[i])
    requires Settled(cost, dist, todo, c)
    ensures PartlyClosed(passable, cost, dist, todo, cur, c, ns, i + 1)
  {
  }

  /** Once all neighbours of cur are bounded, cur is closed. */
  lemma ReachClose(g: TileMap, passable: Pos -> bool, cost: Pos -> real, maxCost: real,
                   dist: map<Pos, real>, todo: map<Pos, real>, cur: Pos, c: real, ns: seq<Pos>)
    requires cur in dist && dist[cur] == c
    requires ns == g.Neighbours(cur)
    requires ClosedExcept(g, passable, cost, maxCost, dist, todo, {cur})
    requires PartlyClosed(passable, cost, dist, todo, cur, c, ns, |ns|)
    ensures ClosedExcept(g, passable, cost, maxCost, dist, todo, {})
  {
    if NonNegative(cost) {
      forall n | Step(g, passable, cur, n)
        ensures Bound(dist, todo, n, c + cost(cur))
      {
        g.NeighboursAdjacent(cur, n);
        var j :| 0 <= j < |ns| && ns[j] == n;
      }
      assert dist[cur] <= maxCost ==> Closed(g, passable, cost, dist, todo, cur);
    }
  }

  /** Settling one more cell of the universe leaves fewer unsettled. */
  lemma Shrinks(universe: set<Pos>, visited: set<Pos>, cur: Pos)
    requires cur in universe && cur !in visited
    ensures |universe - (visited + {cur})| < |universe - visited|
  {
    assert universe - (visited + {cur}) == (universe - visited) - {cur};
  }

  /** A settled cell dearer than the budget need not be closed. */
  lemma ReachOverBudget(g: TileMap, passable: Pos -> bool, cost: Pos -> real, maxCost: real,
                        dist: map<Pos, real>, todo: map<Pos, real>, cur: Pos)
    requires cur in dist && dist[cur] > maxCost
    requires ClosedExcept(g, passable, cost, maxCost, dist, todo, {cur})
    ensures ClosedExcept(g, passable, cost, maxCost, dist, todo, {})
  {
  }

  /** When the queue is empty the bookkeeping yields the promised set. */
  lemma ReachFinal(g: TileMap, passable: Pos -> bool, cost: Pos -> real, start: Pos, maxCost: real,
                   universe: set<Pos>, visited: set<Pos>, dist: map<Pos, real>, todo: map<Pos, real>,
                   walks: map<Pos, seq<Pos>>, reachable: set<Pos>)
    requires ReachState(g, passable, cost, start, maxCost, universe, visited, dist, todo, walks, reachable)
    requires ClosedExcept(g, passable, cost, maxCost, dist, todo, {})
    requires todo == map[]
    ensures start in reachable
    ensures forall p :: p in reachable ==> ReachableWithin(g, passable, cost, start, maxCost, p)
    ensures forall p :: p in reachable && p != start ==> g.TileExists(p) && passable(p)
    ensures NonNegative(cost) ==>
              forall p :: ReachableWithin(g, passable, cost, start, maxCost, p) ==> p in reachable
  {
    forall p | p in reachable && p != start
      ensures ReachableWithin(g, passable, cost, start, maxCost, p)
      ensures g.TileExists(p) && passable(p)
    {
      var w := walks[p];
      assert WalkFromTo(g, passable, w, start, p) && WalkCost(cost, w) <= maxCost;
      WalkPrefix(g, passable, cost, w);
    }
    if NonNegative(cost) {
      assert start in dist && dist[start] == 0.0;
      forall p | ReachableWithin(g, passable, cost, start, maxCost, p)
        ensures p in reachable
      {
        if p != start {
          var w :| WalkFromTo(g, passable, w, start, p) && WalkCost(cost, w) <= maxCost;
          WalkReaches(g, passable, cost, start, dist, maxCost, w);
        }
      }
    }
  }

  /** The bookkeeping of the inner loop of `reachable_tiles` after offering cur's first i neighbours. */
  ghost predicate ExpandInv(g: TileMap, passable: Pos -> bool, cost: Pos -> real, start: Pos, maxCost: real,
                            universe: set<Pos>, visited: set<Pos>, dist: map<Pos, real>, todo: map<Pos, real>,
                            walks: map<Pos, seq<Pos>>, reachable: set<Pos>, cur: Pos, c: real, ns: seq<Pos>, i: int)
  {
    0 <= i <= |ns| &&
    ReachState(g, passable, cost, start, maxCost, universe, visited, dist, todo, walks, reachable) &&
    cur in visited && cur in dist && dist[cur] == c &&
    Settled(cost, dist, todo, c) &&
    ClosedExcept(g, passable, cost, maxCost, dist, todo, {cur}) &&
    PartlyClosed(passable, cost, dist, todo, cur, c, ns, i)
  }

  /** Offering ns[i] a lower cost keeps the inner-loop bookkeeping. */
  lemma ExpandRelax(g: TileMap, passable: Pos -> bool, cost: Pos -> real, start: Pos, maxCost: real,
                    universe: set<Pos>, visited: set<Pos>, dist: map<Pos, real>, todo: map<Pos, real>,
                    walks: map<Pos, seq<Pos>>, reachable: set<Pos>, cur: Pos, c: real, ns: seq<Pos>, i: int,
                    x: real)
    requires ExpandInv(g, passable, cost, start, maxCost, universe, visited, dist, todo, walks, reachable, cur, c, ns, i)
    requires g.Cells() <= universe && ns == g.Neighbours(cur) && i < |ns|
    requires ns[i] !in visited && passable(ns[i]) && x == c + cost(cur)
    requires ns[i] !in todo || x < todo[ns[i]]
    ensures ExpandInv(g, passable, cost, start, maxCost, universe, visited, dist, todo[ns[i] := x],
                      walks[ns[i] := walks[cur] + [ns[i]]], if x <= maxCost then reachable + {ns[i]} else reachable,
                      cur, c, ns, i + 1)
  {
    var n := ns[i];
    var w := walks[cur] + [n];
    g.NeighboursAdjacent(cur, n);
    WalkExtend(g, passable, walks[cur], n);
    WalkCostAppend(cost, walks[cur], n);
    FrameRelax(universe, visited, dist, todo, n, x);
    SplitRelax(universe, start, maxCost, reachable, visited, dist, todo, n, x);
    WitnessedOther(g, passable, cost, start, walks, dist, n, w);
    WitnessedQueue(g, passable, cost, start, walks, todo, n, w, x);
    OrderRelax(g, passable, cost, maxCost, dist, todo, cur, c, ns, i, x);
  }

  /** An offer that does not lower the queued cost of ns[i] keeps the inner-loop bookkeeping. */
  lemma ExpandKeep(g: TileMap, passable: Pos -> bool, cost: Pos -> real, start: Pos, maxCost: real,
                   universe: set<Pos>, visited: set<Pos>, dist: map<Pos, real>, todo: map<Pos, real>,
                   walks: map<Pos, seq<Pos>>, reachable: set<Pos>, cur: Pos, c: real, ns: seq<Pos>, i: int)
    requires ExpandInv(g, passable, cost, start, maxCost, universe, visited, dist, todo, walks, reachable, cur, c, ns, i)
    requires i < |ns|
    requires (ns[i] in todo && todo[ns[i]] <= c + cost(cur)) || ns[i] in visited || !passable(ns[i])
    ensures ExpandInv(g, passable, cost, start, maxCost, universe, visited, dist, todo, walks, reachable,
                      cur, c, ns, i + 1)
  {
    if ns[i] in visited || !passable(ns[i]) {
      ReachSkip(passable, cost, dist, todo, cur, c, ns, i);
    } else {
      OrderKeep(passable, cost, dist, todo, cur, c, ns, i);
    }
  }

  /**
   * The inner loop of `reachable_tiles`: offers every passable, unsettled
   * neighbour of the settled cell cur the cost through cur, adding it to the
   * set when the offer lowers its queued cost within budget.
   */
  method Expand(g: TileMap, start: Pos, maxCost: real, cost: Pos -> real, passable: Pos -> bool,
                todo: PQueue<Pos>, ghost universe: set<Pos>, visited: set<Pos>, ghost dist: map<Pos, real>,
                cur: Pos, c: real, reachable0: set<Pos>, ghost walks0: map<Pos, seq<Pos>>)
    returns (reachable': set<Pos>, ghost walks': map<Pos, seq<Pos>>)
    modifies todo
    requires ReachState(g, passable, cost, start, maxCost, universe, visited, dist, todo.items, walks0, reachable0)
    requires g.Cells() <= universe
    requires cur in visited && cur in dist && dist[cur] == c && c <= maxCost
    requires Settled(cost, dist, todo.items, c)
    requires ClosedExcept(g, passable, cost, maxCost, dist, todo.items, {cur})
    ensures ReachState(g, passable, cost, start, maxCost, universe, visited, dist, todo.items, walks', reachable')
    ensures Settled(cost, dist, todo.items, c)
    ensures ClosedExcept(g, passable, cost, maxCost, dist, todo.items, {})
    ensures todo.tieBreaker == old(todo.tieBreaker)
  {
    var reachable, walks := reachable0, walks0;
    var ns := g.Neighbours(cur);
    var i := 0;
    while i < |ns|
      invariant todo.tieBreaker == old(todo.tieBreaker)
      invariant ExpandInv(g, passable, cost, start, maxCost, universe, visited, dist, todo.items, walks, reachable,
                          cur, c, ns, i)
      decreases |ns| - i
    {
      var n := ns[i];
      ghost var items := todo.items;
      if n !in visited && passable(n) {
        var newCost := c + cost(cur);
        var changed := todo.Update(n, newCost);
        if changed {
          ExpandRelax(g, passable, cost, start, maxCost, universe, visited, dist, items, walks, reachable,
                      cur, c, ns, i, newCost);
          walks := walks[n := walks[cur] + [n]];
          reachable := if newCost <= maxCost then reachable + {n} else reachable;
        } else {
          ExpandKeep(g, passable, cost, start, maxCost, universe, visited, dist, items, walks, reachable, cur, c, ns, i);
        }
      } else {
        ExpandKeep(g, passable, cost, start, maxCost, universe, visited, dist, items, walks, reachable, cur, c, ns, i);
      }
      i := i + 1;
    }
    ReachClose(g, passable, cost, maxCost, dist, todo.items, cur, c, ns);
    walks' := walks;
    reachable' := reachable;
  }

  /**
   * `reachable_tiles`: the cells that can be reached from start within
   * maxCost, found by a Dijkstra search that stops expanding cells dearer
   * than maxCost. Start is always included; every other member is the end
   * of a walk within budget; with non-negative costs every such end is a
   * member.
   */
  method ReachableTiles(g: TileMap, start: Pos, maxCost: real, cost: Pos -> real, passable: Pos -> bool)
    returns (reachable: set<Pos>)
    ensures start in reachable
    ensures forall p :: p in reachable ==> ReachableWithin(g, passable, cost, start, maxCost, p)
    ensures forall p :: p in reachable && p != start ==> g.TileExists(p) && passable(p)
    ensures NonNegative(cost) ==>
              forall p :: ReachableWithin(g, passable, cost, start, maxCost, p) ==> p in reachable
  {
    var todo := new PQueue<Pos>();
    var queued := todo.Update(start, 0.0);
    var visited: set<Pos> := {};
    reachable := {start};
    ghost var dist: map<Pos, real> := map[];
    ghost var walks: map<Pos, seq<Pos>> := map[start := [start]];
    ghost var level := 0.0;
    ghost var universe := g.Cells() + {start};
    while todo.NonEmpty()
      invariant todo.tieBreaker == None
      invariant ReachState(g, passable, cost, start, maxCost, universe, visited, dist, todo.items, walks, reachable)
      invariant Settled(cost, dist, todo.items, level)
      invariant ClosedExcept(g, passable, cost, maxCost, dist, todo.items, {})
      decreases |universe - visited|
    {
      ghost var before := todo.items;
      var cur, c := todo.PopSmallest();
      ReachPop(g, passable, cost, start, maxCost, universe, visited, dist, before, walks, reachable, level, cur, c);
      Shrinks(universe, visited, cur);
      visited := visited + {cur};
      dist := dist[cur := c];
      level := c;
      if c <= maxCost {
        reachable, walks := Expand(g, start, maxCost, cost, passable, todo, universe, visited, dist, cur, c,
                                   reachable, walks);
      } else {
        ReachOverBudget(g, passable, cost, maxCost, dist, todo.items, cur);
      }
    }
    ReachFinal(g, passable, cost, start, maxCost, universe, visited, dist, todo.items, walks, reachable);
  }

  /**
   * A larger budget never yields fewer cells: r1, sound for budget m1, lies
   * inside r2, complete for budget m2 >= m1. ReachableTiles promises both
   * when the costs are non-negative.
   */
  lemma ReachableTilesMonotone(g: TileMap, passable: Pos -> bool, cost: Pos -> real, start: Pos,
                               m1: real, m2: real, r1: set<Pos>, r2: set<Pos>)
    requires m1 <= m2
    requires forall p :: p in r1 ==> ReachableWithin(g, passable, cost, start, m1, p)
    requires forall p :: ReachableWithin(g, passable, cost, start, m2, p) ==> p in r2
    ensures r1 <= r2
  {
    forall p | p in r1
      ensures p in r2
    {
      ReachableWithinMonotone(g, passable, cost, start, m1, m2, p);
    }
  }
}
